/** The table's state machine: the list request it builds from its state
    (`buildLoadParams`), the `isLoading` guard of `load`, the list cache in
    `performLoad`, `processLoadedData`, and the user actions that change the
    state and start a load: sorting, paging, searching and filtering. */
module TableState {
  import opened Wrappers
  import opened Js
  import opened Fields
  import opened Sorting
  import opened Cache
  import opened Events
  import opened Paging
  import Strings

  /** `options.actions.listAction`: a URL, a function, or neither. */
  datatype ListAction = UrlAction(url: string) | FunctionAction(id: nat) | NoAction

  /** The options the modelled operations read. `pageSize` 0 and
      `listCache` 0 stand for unset; `listQueryParams` is what the
      `listQueryParams` function returns, `None` when there is none. */
  datatype Config = Config(
    paging: bool,
    pageSize: int,
    sorting: bool,
    multiSorting: bool,
    multiSortingCtrlKey: bool,
    defaultSorting: JsValue,
    toolbarsearch: bool,
    listCache: int,
    listAction: ListAction,
    listQueryParams: Option<Params>,
    fields: FieldList)

  /** What the list action gave back: a response body, or a thrown error
      (from the HTTP client or the action function). */
  datatype ListResponse = Responded(data: JsValue) | TransportError(message: string)

  /** What `performLoad` settles with. */
  datatype LoadOutcome = Loaded(data: JsValue) | LoadFailed(message: string)

  /** One entry of `state.filters`. */
  datatype Filter = Filter(fieldName: string, value: JsValue, operator: string)

  /** The `state` object of the table. `pageSize` 0 stands for unset. */
  datatype State = State(
    records: JsValue,
    totalRecordCount: JsValue,
    currentPage: int,
    pageSize: int,
    isLoading: bool,
    sorting: seq<SortEntry>,
    searchQueries: Entries<string>,
    filters: seq<Filter>)

  /** Search queries as `handleSearchInputChange` keeps them: one per field,
      trimmed and non-empty. */
  predicate WellFormedSearch(sq: Entries<string>) {
    DistinctKeys(sq) && forall i :: 0 <= i < |sq| ==> IsQuery(sq[i].1)
  }

  /** A stored query: trimmed and non-empty. */
  predicate IsQuery(v: string) {
    v != "" && Strings.Trim(v) == v
  }

  /** The non-empty queries and their field names, in entry order: the
      parallel `q` and `opt` lists. */
  function SearchParams(sq: Entries<string>): (r: (seq<string>, seq<string>))
    ensures |r.0| == |r.1|
  {
    if sq == [] then ([], [])
    else
      var prev := SearchParams(sq[..|sq| - 1]);
      var last := sq[|sq| - 1];
      if last.1 != "" then (prev.0 + [last.1], prev.1 + [last.0]) else prev
  }

  function StrArray(xs: seq<string>): (r: seq<JsValue>)
    ensures |r| == |xs|
    ensures forall i :: 0 <= i < |xs| ==> r[i] == Str(xs[i])
  {
    if xs == [] then [] else [Str(xs[0])] + StrArray(xs[1..])
  }

  /** The page size `buildLoadParams` uses: with paging on, an unset page
      size takes the configured one. */
  function DefaultedPageSize(config: Config, pageSize: int): int {
    if config.paging && pageSize == 0 then config.pageSize else pageSize
  }

  /** The `jtSorting` value: the current sorting list if it is not empty,
      otherwise the parsed default sorting when one is configured. */
  function SortingValue(config: Config, sorting: seq<SortEntry>): Option<string> {
    if !config.sorting then None
    else if sorting != [] then Some(SortingParam(sorting))
    else if Truthy(config.defaultSorting) then Some(SortingParam(ParseDefaultSorting(config.defaultSorting, config.fields)))
    else None
  }

  /** `jtStartIndex` and `jtPageSize`, with paging on. */
  function PagingPart(config: Config, currentPage: int, pageSize: int): Params {
    if config.paging then Put(Put([], "jtStartIndex", Num((currentPage - 1) * pageSize)), "jtPageSize", Num(pageSize))
    else []
  }

  /** `params` with `jtSorting` added when there is a sorting value. */
  function SortingPart(config: Config, sorting: seq<SortEntry>, params: Params): Params {
    match SortingValue(config, sorting)
    case Some(t) => Put(params, "jtSorting", Str(t))
    case None => params
  }

  /** `params` with the parallel `q` and `opt` lists added when toolbar
      search is on and some query is not empty. */
  function SearchPart(config: Config, sq: Entries<string>, params: Params): Params {
    var (q, opt) := SearchParams(sq);
    if config.toolbarsearch && |sq| > 0 && |q| > 0
    then Put(Put(params, "q", Arr(StrArray(q))), "opt", Arr(StrArray(opt)))
    else params
  }

  /** `params` with the `listQueryParams` result assigned over it. */
  function ExtraPart(config: Config, params: Params): Params {
    match config.listQueryParams
    case Some(extra) => Assign(params, extra)
    case None => params
  }

  /** The request fields `buildLoadParams` produces for a state whose page
      size has already been defaulted. */
  function LoadParams(config: Config, currentPage: int, pageSize: int,
                      sorting: seq<SortEntry>, sq: Entries<string>): Params
  {
    ExtraPart(config, SearchPart(config, sq, SortingPart(config, sorting, PagingPart(config, currentPage, pageSize))))
  }

  /** The `forEach` over `state.searchQueries` that fills `q` and `opt`. */
  method CollectSearch(sq: Entries<string>) returns (queries: seq<string>, searchFields: seq<string>)
    ensures (queries, searchFields) == SearchParams(sq)
  {
    queries := [];
    searchFields := [];
    var i := 0;
    while i < |sq|
      invariant 0 <= i <= |sq|
      invariant (queries, searchFields) == SearchParams(sq[..i])
    {
      assert sq[..i + 1][..i] == sq[..i];
      if sq[i].1 != "" {
        queries := queries + [sq[i].1];
        searchFields := searchFields + [sq[i].0];
      }
      i := i + 1;
    }
    assert sq[..i] == sq;
  }

  /** The object `performLoad` stores in the cache. */
  function CacheEntry(data: JsValue, now: int): JsValue {
    Obj(map["data" := data, "timestamp" := Num(now)])
  }

  /** `isCacheExpired(entry, duration)` at time `now`. A truthy timestamp
      that is not a number makes the age NaN, which is never greater. */
  function IsCacheExpired(entry: JsValue, duration: int, now: int): bool {
    if !Truthy(entry) || !Truthy(Get(entry, "timestamp")) then true
    else if Get(entry, "timestamp").Num? then now - Get(entry, "timestamp").n > duration
    else false
  }

  /** The list cache is used only with a URL list action and a set duration. */
  predicate UsesListCache(config: Config) {
    config.listCache != 0 && config.listAction.UrlAction?
  }

  /** A cached entry `performLoad` answers from. */
  predicate Serves(cached: JsValue, duration: int, now: int) {
    Truthy(cached) && !IsCacheExpired(cached, duration, now)
  }

  /** A response `performLoad` accepts: truthy, with `Result === 'OK'`. */
  predicate AcceptedResponse(data: JsValue) {
    Truthy(data) && Get(data, "Result") == Str("OK")
  }

  /** The outcome of calling the list action, with the response checked:
      an accepted response is the data loaded; anything else fails with
      the response's `Message` when it has a truthy one, a fixed message
      otherwise; a transport error fails with its own message, and a
      missing list action fails before anything is sent. */
  function ResponseOutcome(action: ListAction, response: ListResponse): (r: LoadOutcome)
    ensures r.Loaded? ==> Get(r.data, "Result") == Str("OK")
    ensures r.Loaded? <==> !action.NoAction? && response.Responded? && AcceptedResponse(response.data)
    ensures r.Loaded? ==> r.data == response.data
    ensures action.NoAction? ==> r == LoadFailed("No valid listAction provided")
    ensures !action.NoAction? && response.TransportError? ==> r == LoadFailed(response.message)
    ensures !action.NoAction? && response.Responded? && !AcceptedResponse(response.data) ==>
      var message := Get(response.data, "Message");
      r == LoadFailed(if Truthy(message) then ToJsString(message) else "Invalid response from server")
  {
    if action.NoAction? then LoadFailed("No valid listAction provided")
    else match response
      case TransportError(m) => LoadFailed(m)
      case Responded(data) =>
        if !Truthy(data) || Get(data, "Result") != Str("OK") then
          LoadFailed(ToJsString(Or(Get(data, "Message"), Str("Invalid response from server"))))
        else Loaded(data)
  }

  /** `records.length`: the element count of an array or string, the own
      `length` property of an object, `undefined` for the other values. */
  function LengthOf(v: JsValue): JsValue {
    match v
    case Arr(items) => Num(|items|)
    case Str(s) => Num(|s|)
    case Obj(_) => Get(v, "length")
    case _ => Undefined
  }

  /** Whether `renderTableData` gets past the stored records: an empty
      value (`length === 0`) only adds the no-data row, an array is walked
      with `forEach`, and any other value has no `forEach` to call, so the
      call throws. */
  predicate RendersRecords(records: JsValue) {
    LengthOf(records) == Num(0) || records.Arr?
  }

  /** Whether `load` reaches `emit('recordsLoaded')` after processing
      `data`: a response without `Result === 'OK'` is only reported, an
      accepted one must get through rendering its records. */
  predicate Announces(data: JsValue) {
    Get(data, "Result") != Str("OK") || RendersRecords(Or(Get(data, "Records"), Arr([])))
  }

  /** The filters without the one for `name`. */
  function WithoutField(filters: seq<Filter>, name: string): (r: seq<Filter>)
    ensures forall i :: 0 <= i < |r| ==> r[i] in filters && r[i].fieldName != name
    ensures forall i :: 0 <= i < |filters| && filters[i].fieldName != name ==> filters[i] in r
  {
    if filters == [] then []
    else if filters[0].fieldName == name then WithoutField(filters[1..], name)
    else [filters[0]] + WithoutField(filters[1..], name)
  }

  /** The state after `load` passes its guard: `isLoading` raised and the
      page size defaulted; a load in flight leaves the state alone. */
  function StartedState(config: Config, s: State): State {
    if s.isLoading then s else s.(isLoading := true, pageSize := DefaultedPageSize(config, s.pageSize))
  }

  /** The request `load(queryParams)` sends from state `s`, if any. */
  function RequestFor(config: Config, s: State, queryParams: Params): Option<Params> {
    if s.isLoading then None
    else Some(Assign(queryParams, LoadParams(config, s.currentPage, DefaultedPageSize(config, s.pageSize), s.sorting, s.searchQueries)))
  }

  /** `value !== null && value !== undefined && value !== ''` */
  predicate KeepsFilter(value: JsValue) {
    value != Null && value != Undefined && value != Str("")
  }

  /** The filters after `addFilter(name, value, operator)`. */
  function WithFilter(filters: seq<Filter>, name: string, value: JsValue, operator: string): seq<Filter> {
    WithoutField(filters, name) + (if KeepsFilter(value) then [Filter(name, value, operator)] else [])
  }

  /** `state.sorting.findIndex(s => s.fieldName === name)` */
  method FindColumn(sorting: seq<SortEntry>, name: string) returns (index: int)
    ensures index == FindIndex(sorting, name)
  {
    var k := 0;
    while k < |sorting| && sorting[k].fieldName != name
      invariant 0 <= k <= |sorting|
      invariant forall j :: 0 <= j < k ==> sorting[j].fieldName != name
    {
      k := k + 1;
    }
    index := if k < |sorting| then k else -1;
  }

  /** The sorting-list update of `sortByColumn` on a sortable column: the
      column cycles in place, then the list collapses when required. */
  method ClickColumn(sorting: seq<SortEntry>, name: string,
                     multiSorting: bool, multiSortingCtrlKey: bool, ctrlPressed: bool)
    returns (r: seq<SortEntry>)
    ensures r == NextSorting(sorting, name, multiSorting, multiSortingCtrlKey, ctrlPressed)
  {
    r := sorting;
    var existing := FindColumn(r, name);
    var isSorted := true;
    var newDirection := Asc;
    if existing >= 0 {
      if r[existing].direction == Asc {
        newDirection := Desc;
        r := r[existing := SortEntry(r[existing].fieldName, newDirection)];
      } else {
        r := r[..existing] + r[existing + 1..];
        isSorted := false;
      }
    } else {
      r := r + [SortEntry(name, newDirection)];
    }
    assert (r, isSorted, newDirection) == Cycle(sorting, name);
    if multiSorting {
      if multiSortingCtrlKey && !ctrlPressed {
        r := if isSorted then [SortEntry(name, newDirection)] else [];
      }
    } else {
      r := if isSorted then [SortEntry(name, newDirection)] else [];
    }
  }

  /** `listQueryParams` returns an object, so its keys are distinct. */
  predicate ExtraWellFormed(config: Config) {
    config.listQueryParams.None? || DistinctKeys(config.listQueryParams.value)
  }

  /** `listQueryParams` does not set `key`. */
  predicate ExtraLeaves(config: Config, key: string) {
    config.listQueryParams.None? || !HasKey(config.listQueryParams.value, key)
  }

  lemma LookupBuilt(config: Config, sorting: seq<SortEntry>, sq: Entries<string>, p: Params, k: string)
    requires k != "jtSorting" && k != "q" && k != "opt"
    requires ExtraWellFormed(config) && ExtraLeaves(config, k)
    ensures Lookup(ExtraPart(config, SearchPart(config, sq, SortingPart(config, sorting, p))), k) == Lookup(p, k)
  {
    var sorted := SortingPart(config, sorting, p);
    var searched := SearchPart(config, sq, sorted);
    if SortingValue(config, sorting).Some? {
      LookupPut(p, "jtSorting", Str(SortingValue(config, sorting).value), k);
    }
    var (q, opt) := SearchParams(sq);
    LookupPut(sorted, "q", Arr(StrArray(q)), k);
    LookupPut(Put(sorted, "q", Arr(StrArray(q))), "opt", Arr(StrArray(opt)), k);
    if config.listQueryParams.Some? {
      LookupAssign(searched, config.listQueryParams.value, k);
    }
  }

  /** With paging on, the request asks for the page's first record index
      and the page size; with paging off it carries neither. */
  lemma LoadParamsPaging(config: Config, currentPage: int, pageSize: int, sorting: seq<SortEntry>, sq: Entries<string>)
    requires ExtraWellFormed(config) && ExtraLeaves(config, "jtStartIndex") && ExtraLeaves(config, "jtPageSize")
    ensures var r := LoadParams(config, currentPage, pageSize, sorting, sq);
      Lookup(r, "jtStartIndex") == (if config.paging then Some(Num((currentPage - 1) * pageSize)) else None)
      && Lookup(r, "jtPageSize") == (if config.paging then Some(Num(pageSize)) else None)
  {
    var p := PagingPart(config, currentPage, pageSize);
    LookupBuilt(config, sorting, sq, p, "jtStartIndex");
    LookupBuilt(config, sorting, sq, p, "jtPageSize");
    if config.paging {
      LookupPut(Put([], "jtStartIndex", Num((currentPage - 1) * pageSize)), "jtPageSize", Num(pageSize), "jtStartIndex");
      LookupPut([], "jtStartIndex", Num((currentPage - 1) * pageSize), "jtStartIndex");
    }
  }

  lemma LookupSortingValue(config: Config, currentPage: int, pageSize: int, sorting: seq<SortEntry>, sq: Entries<string>)
    requires ExtraWellFormed(config) && ExtraLeaves(config, "jtSorting")
    ensures Lookup(LoadParams(config, currentPage, pageSize, sorting, sq), "jtSorting")
      == (match SortingValue(config, sorting) case Some(t) => Some(Str(t)) case None => None)
  {
    var p := PagingPart(config, currentPage, pageSize);
    var sorted := SortingPart(config, sorting, p);
    var searched := SearchPart(config, sq, sorted);
    if SortingValue(config, sorting).Some? {
      LookupPut(p, "jtSorting", Str(SortingValue(config, sorting).value), "jtSorting");
    } else if config.paging {
      LookupPut(Put([], "jtStartIndex", Num((currentPage - 1) * pageSize)), "jtPageSize", Num(pageSize), "jtSorting");
      LookupPut([], "jtStartIndex", Num((currentPage - 1) * pageSize), "jtSorting");
    }
    var (q, opt) := SearchParams(sq);
    LookupPut(sorted, "q", Arr(StrArray(q)), "jtSorting");
    LookupPut(Put(sorted, "q", Arr(StrArray(q))), "opt", Arr(StrArray(opt)), "jtSorting");
    if config.listQueryParams.Some? {
      LookupAssign(searched, config.listQueryParams.value, "jtSorting");
    }
  }

  /** With sorting on, the request's `jtSorting` is the current sorting
      list written out, and it reads back as that list; with an empty list
      it is the configured default sorting, parsed and written out. */
  lemma LoadParamsSorting(config: Config, currentPage: int, pageSize: int, sorting: seq<SortEntry>, sq: Entries<string>)
    requires config.sorting
    requires ExtraWellFormed(config) && ExtraLeaves(config, "jtSorting")
    requires forall i :: 0 <= i < |sorting| ==> PlainName(sorting[i].fieldName) && Sortable(config.fields, sorting[i].fieldName)
    ensures var r := LoadParams(config, currentPage, pageSize, sorting, sq);
      (sorting != [] ==> Lookup(r, "jtSorting") == Some(Str(SortingParam(sorting)))
                         && ParseDefaultSorting(Str(SortingParam(sorting)), config.fields) == sorting)
      && (sorting == [] && Truthy(config.defaultSorting) ==>
            Lookup(r, "jtSorting") == Some(Str(SortingParam(ParseDefaultSorting(config.defaultSorting, config.fields)))))
      && (sorting == [] && !Truthy(config.defaultSorting) ==> Lookup(r, "jtSorting") == None)
  {
    LookupSortingValue(config, currentPage, pageSize, sorting, sq);
    SortingParamRoundTrip(sorting, config.fields);
  }

  /** `q[i]` is a non-empty query given for field `opt[i]`, and every
      non-empty query appears. */
  lemma {:induction false} SearchParamsPairs(sq: Entries<string>)
    ensures var (q, opt) := SearchParams(sq);
      (forall i :: 0 <= i < |q| ==> q[i] != "" && (opt[i], q[i]) in sq)
      && (forall e :: e in sq && e.1 != "" ==> exists i :: 0 <= i < |q| && (opt[i], q[i]) == e)
  {
    if sq != [] {
      var prefix := sq[..|sq| - 1];
      SearchParamsPairs(prefix);
      var (q, opt) := SearchParams(prefix);
      var last := sq[|sq| - 1];
      assert sq == prefix + [last];
      forall e | e in sq && e.1 != ""
        ensures exists i :: 0 <= i < |SearchParams(sq).0| && (SearchParams(sq).1[i], SearchParams(sq).0[i]) == e
      {
        if e in prefix {
          var i :| 0 <= i < |q| && (opt[i], q[i]) == e;
          assert (SearchParams(sq).1[i], SearchParams(sq).0[i]) == e;
        } else {
          assert e == last;
          assert (SearchParams(sq).1[|q|], SearchParams(sq).0[|q|]) == e;
        }
      }
    }
  }

  /** For well-formed queries nothing is dropped: `opt[i]` is the field
      of entry `i` and `q[i]` its query. */
  lemma {:induction false} SearchParamsWellFormed(sq: Entries<string>)
    requires forall i :: 0 <= i < |sq| ==> sq[i].1 != ""
    ensures var r := SearchParams(sq);
      |r.0| == |sq| && forall i :: 0 <= i < |sq| ==> sq[i] == (r.1[i], r.0[i])
  {
    if sq != [] {
      var prefix := sq[..|sq| - 1];
      assert forall i :: 0 <= i < |prefix| ==> prefix[i] == sq[i];
      SearchParamsWellFormed(prefix);
    }
  }

  /** With toolbar search on and some query set, the request carries the
      queries as `q` and their fields as `opt`, position by position. */
  lemma LoadParamsSearch(config: Config, currentPage: int, pageSize: int, sorting: seq<SortEntry>, sq: Entries<string>)
    requires config.toolbarsearch && WellFormedSearch(sq) && sq != []
    requires ExtraWellFormed(config) && ExtraLeaves(config, "q") && ExtraLeaves(config, "opt")
    ensures var r := LoadParams(config, currentPage, pageSize, sorting, sq);
      var (q, opt) := SearchParams(sq);
      Lookup(r, "q") == Some(Arr(StrArray(q)))
      && Lookup(r, "opt") == Some(Arr(StrArray(opt)))
      && |q| == |sq| && (forall i :: 0 <= i < |sq| ==> sq[i] == (opt[i], q[i]))
  {
    SearchParamsWellFormed(sq);
    var (q, opt) := SearchParams(sq);
    var sorted := SortingPart(config, sorting, PagingPart(config, currentPage, pageSize));
    var withQ := Put(sorted, "q", Arr(StrArray(q)));
    var searched := Put(withQ, "opt", Arr(StrArray(opt)));
    LookupPut(sorted, "q", Arr(StrArray(q)), "q");
    LookupPut(withQ, "opt", Arr(StrArray(opt)), "q");
    LookupPut(withQ, "opt", Arr(StrArray(opt)), "opt");
    if config.listQueryParams.Some? {
      LookupAssign(searched, config.listQueryParams.value, "q");
      LookupAssign(searched, config.listQueryParams.value, "opt");
    }
  }

  /** The query update of `handleSearchInputChange`: a trimmed non-empty
      value is set for the field, an empty one deletes its query. */
  function SetQuery(sq: Entries<string>, name: string, raw: string): Entries<string> {
    var value := Strings.Trim(raw);
    if value != "" then Put(sq, name, value) else Remove(sq, name)
  }

  /** After a search input changes, the field's query is the trimmed input
      or absent when that is empty; every other query is as it was, and
      the queries stay well formed. */
  lemma SetQuerySpec(sq: Entries<string>, name: string, raw: string)
    requires WellFormedSearch(sq)
    ensures WellFormedSearch(SetQuery(sq, name, raw))
    ensures Lookup(SetQuery(sq, name, raw), name) == (if Strings.Trim(raw) != "" then Some(Strings.Trim(raw)) else None)
    ensures forall other :: other != name ==> Lookup(SetQuery(sq, name, raw), other) == Lookup(sq, other)
  {
    var value := Strings.Trim(raw);
    if value != "" {
      Strings.TrimIdempotent(raw);
      QueryPut(sq, name, value);
    } else {
      QueryRemove(sq, name);
    }
  }

  lemma SetQueryWellFormed(sq: Entries<string>, name: string, raw: string)
    requires WellFormedSearch(sq)
    ensures WellFormedSearch(SetQuery(sq, name, raw))
  {
    SetQuerySpec(sq, name, raw);
  }

  lemma QueryPut(sq: Entries<string>, name: string, value: string)
    requires WellFormedSearch(sq) && IsQuery(value)
    ensures WellFormedSearch(Put(sq, name, value))
    ensures Lookup(Put(sq, name, value), name) == Some(value)
    ensures forall other :: other != name ==> Lookup(Put(sq, name, value), other) == Lookup(sq, other)
  {
    PutDistinct(sq, name, value);
    PutValues(sq, name, value, IsQuery);
    forall other { LookupPut(sq, name, value, other); }
  }

  lemma QueryRemove(sq: Entries<string>, name: string)
    requires WellFormedSearch(sq)
    ensures WellFormedSearch(Remove(sq, name))
    ensures Lookup(Remove(sq, name), name) == None
    ensures forall other :: other != name ==> Lookup(Remove(sq, name), other) == Lookup(sq, other)
  {
    RemoveDistinct(sq, name);
    RemoveValues(sq, name, IsQuery);
    forall other { LookupRemove(sq, name, other); }
  }

  /** An entry `performLoad` stored at time `stored` serves its data until
      more than `duration` has passed; one stamped 0 never serves. */
  lemma CacheEntryFreshness(data: JsValue, stored: int, now: int, duration: int)
    ensures Get(CacheEntry(data, stored), "data") == data
    ensures stored != 0 ==> (Serves(CacheEntry(data, stored), duration, now) <==> now - stored <= duration)
    ensures stored == 0 ==> !Serves(CacheEntry(data, stored), duration, now)
  {
  }

  /** A load started while another is in flight is ignored. */
  lemma SecondLoadIgnored(config: Config, s: State, first: Params, second: Params)
    requires RequestFor(config, s, first).Some?
    ensures RequestFor(config, StartedState(config, s), second) == None
    ensures StartedState(config, StartedState(config, s)) == StartedState(config, s)
  {
  }

  /** After `addFilter`, `name` has exactly one filter when the value is
      kept and none otherwise; the other fields' filters stay as they were,
      so at most one filter per field is kept. */
  lemma WithFilterSpec(filters: seq<Filter>, name: string, value: JsValue, operator: string)
    ensures var r := WithFilter(filters, name, value, operator);
      (forall i :: 0 <= i < |r| && r[i].fieldName == name ==> r[i] == Filter(name, value, operator) && i == |r| - 1)
      && (KeepsFilter(value) <==> exists i :: 0 <= i < |r| && r[i].fieldName == name)
      && (forall f :: f in filters && f.fieldName != name ==> f in r)
      && (forall f :: f in r && f.fieldName != name ==> f in filters)
      && (OneFilterPerField(filters) ==> OneFilterPerField(r))
  {
    var w := WithoutField(filters, name);
    var r := WithFilter(filters, name, value, operator);
    if KeepsFilter(value) {
      assert r[|r| - 1].fieldName == name;
    }
    if OneFilterPerField(filters) {
      WithoutFieldKeepsOne(filters, name);
    }
  }

  /** Each field has at most one filter. */
  predicate OneFilterPerField(filters: seq<Filter>) {
    forall i, j :: 0 <= i < j < |filters| ==> filters[i].fieldName != filters[j].fieldName
  }

  lemma {:induction false} WithoutFieldKeepsOne(filters: seq<Filter>, name: string)
    requires OneFilterPerField(filters)
    ensures OneFilterPerField(WithoutField(filters, name))
  {
    if filters != [] {
      var rest := filters[1..];
      assert OneFilterPerField(rest) by {
        forall a, b | 0 <= a < b < |rest| ensures rest[a].fieldName != rest[b].fieldName {
          assert rest[a] == filters[a + 1] && rest[b] == filters[b + 1];
        }
      }
      WithoutFieldKeepsOne(rest, name);
      var w := WithoutField(rest, name);
      if filters[0].fieldName != name {
        forall j | 0 <= j < |w| ensures w[j].fieldName != filters[0].fieldName {
          var k :| 0 <= k < |rest| && rest[k] == w[j];
          assert filters[k + 1] == w[j];
        }
        assert WithoutField(filters, name) == [filters[0]] + w;
      }
    }
  }

  class Table {
    const config: Config
    const cache: OptionsCache
    const emitter: EventEmitter
    var records: JsValue
    var totalRecordCount: JsValue
    var currentPage: int
    var pageSize: int
    var isLoading: bool
    var sorting: seq<SortEntry>
    var searchQueries: Entries<string>
    var filters: seq<Filter>

    /** `getState()` */
    function GetState(): State
      reads this
    {
      State(records, totalRecordCount, currentPage, pageSize, isLoading, sorting, searchQueries, filters)
    }

    ghost predicate Valid()
      reads this, emitter
    {
      emitter.Valid() && DistinctFields(sorting) && WellFormedSearch(searchQueries)
    }

    constructor (config: Config, cache: OptionsCache, emitter: EventEmitter)
      requires emitter.Valid()
      ensures Valid()
      ensures this.config == config && this.cache == cache && this.emitter == emitter
      ensures GetState() == State(Arr([]), Num(0), 1, 0, false, [], [], [])
    {
      this.config := config;
      this.cache := cache;
      this.emitter := emitter;
      records := Arr([]);
      totalRecordCount := Num(0);
      currentPage := 1;
      pageSize := 0;
      isLoading := false;
      sorting := [];
      searchQueries := [];
      filters := [];
    }

    /** `buildLoadParams()`: defaults the page size, then builds the request
        fields from the state. */
    method BuildLoadParams() returns (params: Params)
      modifies this
      ensures GetState() == old(GetState()).(pageSize := DefaultedPageSize(config, old(pageSize)))
      ensures params == LoadParams(config, currentPage, pageSize, sorting, searchQueries)
    {
      params := AddPaging();
      params := AddSorting(params);
      params := AddSearch(params);
      if config.listQueryParams.Some? {
        params := Assign(params, config.listQueryParams.value);
      }
    }

    /** The paging step of `buildLoadParams`: an unset page size takes the
        configured one, then `jtStartIndex` and `jtPageSize` are set. */
    method AddPaging() returns (r: Params)
      modifies this`pageSize
      ensures pageSize == DefaultedPageSize(config, old(pageSize))
      ensures r == PagingPart(config, currentPage, pageSize)
    {
      r := [];
      if config.paging {
        if pageSize == 0 {
          pageSize := config.pageSize;
        }
        r := Put(r, "jtStartIndex", Num((currentPage - 1) * pageSize));
        r := Put(r, "jtPageSize", Num(pageSize));
      }
    }

    /** The `jtSorting` step of `buildLoadParams`. */
    method AddSorting(params: Params) returns (r: Params)
      ensures r == SortingPart(config, sorting, params)
    {
      r := params;
      if config.sorting {
        if |sorting| > 0 {
          r := Put(r, "jtSorting", Str(SortingParam(sorting)));
        } else if Truthy(config.defaultSorting) {
          r := Put(r, "jtSorting", Str(SortingParam(ParseDefaultSorting(config.defaultSorting, config.fields))));
        }
      }
    }

    /** The `q`/`opt` step of `buildLoadParams`. */
    method AddSearch(params: Params) returns (r: Params)
      ensures r == SearchPart(config, searchQueries, params)
    {
      r := params;
      if config.toolbarsearch && |searchQueries| > 0 {
        var queries, searchFields := CollectSearch(searchQueries);
        if |queries| > 0 {
          r := Put(r, "q", Arr(StrArray(queries)));
          r := Put(r, "opt", Arr(StrArray(searchFields)));
        }
      }
    }

    /** The synchronous start of `load(queryParams)`: ignored while a load
        is in flight; otherwise raises `isLoading` and gives the request
        parameters, the caller's first and the built ones over them.
        `load()` with no argument passes the default `{}`, here `[]`. */
    method StartLoad(queryParams: Params) returns (request: Option<Params>)
      modifies this
      ensures GetState() == StartedState(config, old(GetState()))
      ensures request == RequestFor(config, old(GetState()), queryParams)
    {
      if isLoading {
        return None;
      }
      isLoading := true;
      var built := BuildLoadParams();
      request := Some(Assign(queryParams, built));
    }

    /** `performLoad(params)` at time `now`; `response` is what the list
        action gives when it is called. */
    method PerformLoad(params: Params, now: int, response: ListResponse) returns (outcome: LoadOutcome)
      modifies cache
      ensures UsesListCache(config) && Serves(old(cache.Get(config.listAction.url, params)), config.listCache, now) ==>
        outcome == Loaded(Get(old(cache.Get(config.listAction.url, params)), "data"))
        && cache.entries == old(cache.entries)
      ensures !(UsesListCache(config) && Serves(old(cache.Get(config.listAction.url, params)), config.listCache, now)) ==>
        outcome == ResponseOutcome(config.listAction, response)
        && cache.entries == (if outcome.Loaded? && UsesListCache(config)
                             then old(cache.entries)[GenerateKey(config.listAction.url, params) := CacheEntry(outcome.data, now)]
                             else old(cache.entries))
    {
      var action := config.listAction;
      if config.listCache != 0 && action.UrlAction? {
        var cached := cache.Get(action.url, params);
        if Truthy(cached) && !IsCacheExpired(cached, config.listCache, now) {
          return Loaded(Get(cached, "data"));
        }
      }
      if action.NoAction? {
        return LoadFailed("No valid listAction provided");
      }
      if response.TransportError? {
        return LoadFailed(response.message);
      }
      var data := response.data;
      if !Truthy(data) || Get(data, "Result") != Str("OK") {
        return LoadFailed(ToJsString(Or(Get(data, "Message"), Str("Invalid response from server"))));
      }
      if config.listCache != 0 && action.UrlAction? {
        cache.Set(action.url, params, CacheEntry(data, now));
      }
      return Loaded(data);
    }

    /** `processLoadedData(data)` */
    method ProcessLoadedData(data: JsValue)
      modifies this
      ensures Get(data, "Result") != Str("OK") ==> GetState() == old(GetState())
      ensures Get(data, "Result") == Str("OK") ==>
        GetState() == old(GetState()).(
          records := Or(Get(data, "Records"), Arr([])),
          totalRecordCount := Or(Get(data, "TotalRecordCount"), LengthOf(Or(Get(data, "Records"), Arr([])))))
    {
      if Get(data, "Result") != Str("OK") {
        return;
      }
      records := Or(Get(data, "Records"), Arr([]));
      totalRecordCount := Or(Get(data, "TotalRecordCount"), LengthOf(records));
    }

    /** The end of `load`: a loaded response is processed and announced with
        `recordsLoaded`, unless rendering its records throws, which `load`
        catches after the state is already updated; in every case
        `isLoading` drops. Returns the callbacks the announcement ran. */
    method FinishLoad(outcome: LoadOutcome) returns (called: seq<nat>)
      requires Valid()
      modifies this, emitter
      ensures Valid() && !isLoading
      ensures outcome.LoadFailed? ==> called == [] && GetState() == old(GetState()).(isLoading := false)
      ensures outcome.Loaded? && Announces(outcome.data) ==> called == Callbacks(old(emitter.Listeners("recordsLoaded")))
      ensures !(outcome.Loaded? && Announces(outcome.data)) ==> called == [] && emitter.events == old(emitter.events)
      ensures outcome.Loaded? && Get(outcome.data, "Result") == Str("OK") ==>
        GetState() == old(GetState()).(
          records := Or(Get(outcome.data, "Records"), Arr([])),
          totalRecordCount := Or(Get(outcome.data, "TotalRecordCount"), LengthOf(Or(Get(outcome.data, "Records"), Arr([])))),
          isLoading := false)
      ensures outcome.Loaded? && Get(outcome.data, "Result") != Str("OK") ==>
        GetState() == old(GetState()).(isLoading := false)
    {
      called := [];
      if outcome.Loaded? {
        ProcessLoadedData(outcome.data);
        if Get(outcome.data, "Result") != Str("OK") || RendersRecords(records) {
          called := emitter.Emit("recordsLoaded");
        }
      }
      isLoading := false;
    }

    /** `load(queryParams)` run to completion with no other load in flight:
        guard, request, list action, processing. */
    method Load(queryParams: Params, now: int, response: ListResponse) returns (called: seq<nat>)
      requires Valid()
      modifies this, cache, emitter
      ensures Valid()
      ensures old(isLoading) ==> called == [] && GetState() == old(GetState()) && cache.entries == old(cache.entries)
      ensures isLoading == old(isLoading)
    {
      var request := StartLoad(queryParams);
      if request.None? {
        return [];
      }
      var outcome := PerformLoad(request.value, now, response);
      called := FinishLoad(outcome);
    }

    /** `sortByColumn(name)`, with `ctrlPressed` for the Ctrl or Meta key of
        the click. A missing or unsortable field changes nothing; otherwise
        the sorting list moves on and a load starts. */
    method SortByColumn(name: string, ctrlPressed: bool) returns (request: Option<Params>)
      requires Valid()
      modifies this
      ensures Valid()
      ensures !Sortable(config.fields, name) ==> request == None && GetState() == old(GetState())
      ensures Sortable(config.fields, name) ==>
        var clicked := old(GetState()).(sorting := NextSorting(old(sorting), name, config.multiSorting, config.multiSortingCtrlKey, ctrlPressed));
        GetState() == StartedState(config, clicked) && request == RequestFor(config, clicked, [])
    {
      var field := Lookup(config.fields, name);
      if field.None? || field.value.sorting == Bool(false) {
        return None;
      }
      NextSortingSpec(sorting, name, config.multiSorting, config.multiSortingCtrlKey, ctrlPressed);
      sorting := ClickColumn(sorting, name, config.multiSorting, config.multiSortingCtrlKey, ctrlPressed);
      request := StartLoad([]);
    }

    /** `changePage(pageNumber)`: the target is clamped to the pages there
        are; moving to another page starts a load. */
    method ChangePage(pageNumber: int) returns (request: Option<Params>)
      requires Valid() && totalRecordCount.Num? && pageSize > 0
      modifies this
      ensures Valid()
      ensures var p := ClampPage(pageNumber, old(totalRecordCount.n), old(pageSize));
        if p == old(currentPage) then request == None && GetState() == old(GetState())
        else GetState() == StartedState(config, old(GetState()).(currentPage := p))
             && request == RequestFor(config, old(GetState()).(currentPage := p), [])
    {
      var totalPages := CeilDiv(totalRecordCount.n, pageSize);
      var target := Max(1, Min(pageNumber, totalPages));
      if target == currentPage {
        return None;
      }
      currentPage := target;
      request := StartLoad([]);
    }

    /** `changePageSize(newSize)`: back to the first page, and a load. */
    method ChangePageSize(newSize: int) returns (request: Option<Params>)
      requires Valid()
      modifies this
      ensures Valid()
      ensures GetState() == StartedState(config, old(GetState()).(pageSize := newSize, currentPage := 1))
      ensures request == RequestFor(config, old(GetState()).(pageSize := newSize, currentPage := 1), [])
    {
      pageSize := newSize;
      currentPage := 1;
      request := StartLoad([]);
    }

    /** The state update of `handleSearchInputChange` for the search input
        of field `name` holding `raw`: a query that trims to nothing is
        removed, any other is stored trimmed. */
    method HandleSearchInputChange(name: string, raw: string)
      requires Valid()
      modifies this
      ensures Valid()
      ensures GetState() == old(GetState()).(searchQueries := SetQuery(old(searchQueries), name, raw))
    {
      SetQueryWellFormed(searchQueries, name, raw);
      searchQueries := SetQuery(searchQueries, name, raw);
    }

    /** `resetSearch()`: every query dropped, and a load. */
    method ResetSearch() returns (request: Option<Params>)
      requires Valid()
      modifies this
      ensures Valid()
      ensures GetState() == StartedState(config, old(GetState()).(searchQueries := []))
      ensures request == RequestFor(config, old(GetState()).(searchQueries := []), [])
    {
      searchQueries := [];
      request := StartLoad([]);
    }

    /** `addFilter(name, value, operator)`; a caller that leaves out the
        operator passes its default, `"equals"`. */
    method AddFilter(name: string, value: JsValue, operator: string)
      modifies this
      ensures GetState() == old(GetState()).(filters := WithFilter(old(filters), name, value, operator))
    {
      filters := WithoutField(filters, name);
      if value != Null && value != Undefined && value != Str("") {
        filters := filters + [Filter(name, value, operator)];
      }
    }
  }
}
