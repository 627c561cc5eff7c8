/** The value pipeline: looking up and applying filters, element-wise for array filters,
    and folding a capture's filter list over the captured value. */
module Pipeline {
  import opened Wrappers
  import opened Errors
  import opened Values
  import opened Syntax

  /** A filter body: called with the value as receiver and the filter's literal arguments;
      it may throw, which is a failure carrying the thrown error. */
  type FilterFn = (Value, seq<Literal>) -> Result<Value, Error>

  /** The values' own operations addressable by name (`value[filter.name]` when that
      member is a function), supplied by the host as a closed table. */
  type Members = (Value, string) -> Option<FilterFn>

  /** `applyFilter`: the registered filter of that name wins; otherwise the value's own
      operation of that name; otherwise an invalid-filter failure. Reading a member of
      null or undefined is a TypeError. */
  function ApplyFilter(filters: map<string, FilterFn>, members: Members, v: Value, f: Filter): (r: Result<Value, Error>)
    ensures f.name in filters ==> r == filters[f.name](v, f.args)
    ensures f.name !in filters && IsNullish(v) ==> r == Err(TypeError)
    ensures f.name !in filters && !IsNullish(v) && members(v, f.name).None? ==> r == Err(InvalidFilter(f.name))
    ensures f.name !in filters && !IsNullish(v) && members(v, f.name).Some? ==> r == members(v, f.name).value(v, f.args)
  {
    if f.name in filters then filters[f.name](v, f.args)
    else if IsNullish(v) then Err(TypeError)
    else match members(v, f.name)
      case Some(fn) => fn(v, f.args)
      case None => Err(InvalidFilter(f.name))
  }

  /** `value.map(item => applyFilter(item, filter))`: fails with the first element whose
      filter application fails; otherwise one result per element, in order. */
  function MapFilter(filters: map<string, FilterFn>, members: Members, items: seq<Value>, f: Filter): (r: Result<seq<Value>, Error>)
    ensures r.Ok? <==> forall i :: 0 <= i < |items| ==> ApplyFilter(filters, members, items[i], f).Ok?
    ensures r.Ok? ==> |r.value| == |items|
    ensures r.Ok? ==> forall i :: 0 <= i < |items| ==> ApplyFilter(filters, members, items[i], f) == Ok(r.value[i])
    ensures r.Err? ==> exists i :: 0 <= i < |items| && ApplyFilter(filters, members, items[i], f) == Err(r.error)
                                   && forall j :: 0 <= j < i ==> ApplyFilter(filters, members, items[j], f).Ok?
  {
    if items == [] then Ok([])
    else
      var x :- ApplyFilter(filters, members, items[0], f);
      var rest :- MapFilter(filters, members, items[1..], f);
      assert forall i :: 1 <= i < |items| ==> items[i] == items[1..][i - 1];
      Ok([x] + rest)
  }

  /** One step of the fold: an array filter needs an array and maps over it. */
  function FilterStep(filters: map<string, FilterFn>, members: Members, v: Value, f: Filter): (r: Result<Value, Error>)
    ensures f.isArrayFilter && !v.Arr? ==> r == Err(ArrayFilterAppliedToNonArrayValue(f.name))
    ensures f.isArrayFilter && v.Arr? && r.Ok? ==>
              r.value.Arr? && |r.value.items| == |v.items| &&
              forall i :: 0 <= i < |v.items| ==> ApplyFilter(filters, members, v.items[i], f) == Ok(r.value.items[i])
    ensures !f.isArrayFilter ==> r == ApplyFilter(filters, members, v, f)
  {
    if f.isArrayFilter then
      if v.Arr? then
        var items :- MapFilter(filters, members, v.items, f);
        Ok(Arr(items))
      else
        Err(ArrayFilterAppliedToNonArrayValue(f.name))
    else
      ApplyFilter(filters, members, v, f)
  }

  /** `applyFilterList`: the left fold of `FilterStep` over the filter list. */
  function FilterChain(filters: map<string, FilterFn>, members: Members, v: Value, filterList: seq<Filter>): (r: Result<Value, Error>)
    ensures filterList == [] ==> r == Ok(v)
    decreases filterList
  {
    if filterList == [] then Ok(v)
    else
      var w :- FilterStep(filters, members, v, filterList[0]);
      FilterChain(filters, members, w, filterList[1..])
  }

  /** Running a chain `a + b` is running `a`, then running `b` on its result. */
  lemma {:induction false} FilterChainAppend(filters: map<string, FilterFn>, members: Members, v: Value, a: seq<Filter>, b: seq<Filter>)
    ensures FilterChain(filters, members, v, a + b) ==
            match FilterChain(filters, members, v, a)
            case Ok(w) => FilterChain(filters, members, w, b)
            case Err(e) => Err(e)
    decreases a
  {
    if a != [] {
      assert (a + b)[0] == a[0];
      assert (a + b)[1..] == a[1..] + b;
      match FilterStep(filters, members, v, a[0])
      case Ok(w) => FilterChainAppend(filters, members, w, a[1..], b);
      case Err(_) =>
    } else {
      assert a + b == b;
    }
  }

  /** An array filter applied to a list of `n` values runs the filter once per element,
      in order, and yields a list of `n` results. */
  lemma ArrayFilterBroadcast(filters: map<string, FilterFn>, members: Members, items: seq<Value>, f: Filter)
    requires f.isArrayFilter
    requires forall i :: 0 <= i < |items| ==> ApplyFilter(filters, members, items[i], f).Ok?
    ensures FilterChain(filters, members, Arr(items), [f]) ==
            Ok(Arr(seq(|items|, i requires 0 <= i < |items| => ApplyFilter(filters, members, items[i], f).value)))
  {
    var r := FilterStep(filters, members, Arr(items), f);
    var want := seq(|items|, i requires 0 <= i < |items| => ApplyFilter(filters, members, items[i], f).value);
    assert r.Ok?;
    assert r.value.items == want;
    assert FilterChain(filters, members, Arr(items), [f]) == FilterChain(filters, members, r.value, []);
  }
}
