# ftable core, modelled in Dafny

This project models the state and data logic of the ftable table
component (`src/ftable.js`). It leaves the DOM, the HTTP client and
the timers aside. What it covers:

- **Options/list cache** (`Cache`). `FTableOptionsCache` is a class over a
  string-keyed map. Its key is the URL followed by the request parameters
  sorted by name. `clear` works at three levels.
- **Event emitter** (`Events`). `FTableEventEmitter` is a class over the
  per-event listener lists. It has `on`, `once`, `off` (as written, which
  misses `once` wrappers, and the corrected removal beside it) and `emit`,
  and a `once` wrapper that removes itself.
- **Option sources** (`FormBuilder`). It covers `resolveOptions` with its
  cache and `noCache` rules, the side table `storeOriginalFieldOptions`
  builds, the dependency graph `buildDependencyMap` builds, and the
  dependent filter of `handleDependencyChange`.
- **Field definitions** (`Fields`). It covers the defaults of
  `processFieldDefinitions`, the column list, the key field and
  `shouldIncludeField`.
- **Table state** (`TableState`). `FTable` is a class over its `state`
  fields. It covers `buildLoadParams`, the `isLoading` guard of `load`,
  the list cache in `performLoad` and `isCacheExpired`, and
  `processLoadedData`. It also covers the user actions `sortByColumn`,
  `changePage`, `changePageSize`, `handleSearchInputChange`,
  `resetSearch` and `addFilter`.
- **Sorting** (`Sorting`). It covers the `jtSorting` string,
  `parseDefaultSorting` and the column click cycle.
- **Paging** (`Paging`). It covers the page clamp, `calculatePageNumbers`
  and the record range of the paging info.
- **Smaller helpers**. These are `getFormData` (`FormData`), `escapeHtml`
  (`Html`), and `deepMerge` and `verifyOptions` (`Options`).

JavaScript values are the datatype `Js.JsValue`, with `Js.Truthy` for
JavaScript truthiness. An object whose key order can be observed is an
association list in insertion order (`Js.Entries`). Examples are the request parameters and
`state.searchQueries`. Some things are parameters of the operations that
need them:

- what the HTTP transport answers;
- what a provider function or list-action function returns;
- the current time;
- whether Ctrl or Meta was held during a click.

## Model

| member | source | states |
|---|---|---|
| Cache.Insert | src/ftable.js:42-43 | inserting a parameter into the sorted list gives the old entries plus that one (as a multiset) |
| Cache.SortByKey | src/ftable.js:42-43 | sorting the parameters by name is a permutation of them |
| Cache.InsertSorted | src/ftable.js:42-43 | inserting a name not yet present keeps the list strictly increasing in JavaScript's default string order |
| Cache.SortByKeySorted | src/ftable.js:42-43 | parameters with distinct names sort to a strictly increasing list |
| Cache.Pairs | src/ftable.js:44 | one piece per parameter, in order: piece `i` is the `i`-th name, `=` and `String` of its value |
| Cache.SortedUnique | src/ftable.js:42-46 | two strictly sorted lists with the same entries are the same list |
| Cache.EntriesOfMap | src/ftable.js:41-46 | with distinct names, an entry is in the list iff the object it denotes maps that name to that value |
| Cache.GenerateKeyOrderIndependent | src/ftable.js:41-47 | two parameter lists denoting the same object give the same cache key, whatever order the names were added in |
| Cache.KeyStartsWithUrlPrefix | src/ftable.js:41-47 | every key generated for a URL starts with the part of the URL before `?`, the prefix that `clear(url)` matches |
| Cache.OptionsCache.constructor | src/ftable.js:37-39 | a new cache is empty |
| Cache.OptionsCache.Set | src/ftable.js:54-57 | exactly the generated key is (over)written, and `get` with the same arguments reads the data back |
| Cache.OptionsCache.Clear | src/ftable.js:59-77 | with URL and params, exactly the generated key goes; with a URL alone, exactly the keys starting with the URL's part before `?` go (a raw prefix match); with no URL, everything goes; every surviving entry keeps its value |
| Events.Callbacks | src/ftable.js:110-115 | the callbacks a listener list calls: one per listener, in order |
| Events.RemoveAsWritten | src/ftable.js:117-122 | the `off` filter as written keeps exactly the listeners that are not the plain callback itself, so `once` wrappers stay |
| Events.OffAsWrittenMissesOnce | src/ftable.js:96-122 | in any listener list holding a `once` wrapper for `cb`, the `off(e, cb)` filter as written keeps that wrapper, so `cb` still fires on the next emit |
| Events.RemoveCallbackExact | src/ftable.js:103-104 | the corrected `off(e, cb)` leaves no listener that calls `cb` and keeps every other listener |
| Events.DropOnceKeepsPlain | src/ftable.js:96-115 | after an emit exactly the `on` listeners remain, and a second emit removes nothing more |
| Events.RemoveCallbackSubset | src/ftable.js:103-104 | the corrected removal keeps the `once` wrappers' identities distinct and fresh |
| Events.RemoveAsWrittenFresh | src/ftable.js:117-122 | `off` as written keeps the `once` wrappers' identities distinct and fresh |
| Events.DropOnceFresh | src/ftable.js:97-100 | an emit keeps the `once` wrappers' identities distinct and fresh |
| Events.EmitStep | src/ftable.js:97-100 | running one listener of the snapshot: a `once` wrapper removes itself, so the live list is the fired prefix without its wrappers followed by the rest |
| Events.EventEmitter.constructor | src/ftable.js:84-86 | no event has listeners |
| Events.EventEmitter.On | src/ftable.js:88-94 | the callback is appended to the event's list, which is created when missing; nothing else changes |
| Events.EventEmitter.Once | src/ftable.js:96-108 | a new wrapper for the callback, distinct from every other wrapper, is appended to the event's list |
| Events.EventEmitter.Off | src/ftable.js:117-122 | as written: the event's list keeps every listener except the plain registrations of the callback, so `once` wrappers for it stay; an unknown event is left alone; the wrapper tokens stay fresh |
| Events.EventEmitter.OffCorrected | src/ftable.js:103-104 | the removal `wrapper.fn` is there for: the event's list loses every listener that calls the callback, `once` wrappers included; an unknown event is left alone |
| Events.EventEmitter.Emit | src/ftable.js:110-115 | the callbacks run are those of the listeners registered when the emit started, in order; afterwards the event's list has lost its `once` wrappers; an unknown event changes nothing |
| Events.EventEmitter.OffWrapper | src/ftable.js:98-99 | the wrapper's own `off` removes that wrapper by identity and nothing else |
| Events.EventEmitter.RunListeners | src/ftable.js:111-112 | the `forEach` over the snapshot calls every snapshot callback in order and leaves the live list as the snapshot without its `once` wrappers |
| Events.EventEmitter.RunOne | src/ftable.js:97-100 | one listener of the snapshot runs: its callback is called, and a `once` wrapper first removes itself from the live list |
| Fields.Coalesce | src/ftable.js:1705-1709 | `v ?? d` is `v` unless `v` is `null` or `undefined`, and then `d`; it is nullish only when both are |
| Fields.DefaultField | src/ftable.js:1693-1710 | defaulting leaves a field's `options`, `dependsOn` and `key` as they were |
| Fields.DefaultFieldIdempotent | src/ftable.js:1693-1710 | defaulting a defaulted field changes nothing |
| Fields.DefaultedFieldInclusion | src/ftable.js:1693-1710 | a key field with a falsy `create` (or `edit`) becomes a hidden input that the create form includes; a key field is always in the edit form; a non-key field is left out of a form iff that form's flag is `false`; `visibility` is always set |
| Fields.DefaultAll | src/ftable.js:1690-1711 | every field is defaulted in place, in definition order |
| Fields.ProcessFieldDefinitionsSpec | src/ftable.js:1688-1726 | the column list holds exactly the fields whose defaulted `list` is not `false`, in definition order; the key field is the first field with `key === true`, and there is none iff no field has one |
| Fields.ColumnListMembers | src/ftable.js:1716-1719 | a name is in the column list iff some field of that name has `list !== false` |
| Fields.ColumnListOrder | src/ftable.js:1716-1719 | the filter keeps definition order: of two columns, the earlier one comes from an earlier field, and both fields have `list !== false` |
| Fields.KeyFieldFirst | src/ftable.js:1722 | `find` gives the first field with `key === true`, or none iff there is no such field |
| FormBuilder.ExplicitNoCacheWins | src/ftable.js:734-749 | an explicit `noCache` in a `{url, noCache}` result wins over a `clearCache()` call, in both directions |
| FormBuilder.Normalize | src/ftable.js:763 | `Options`, else `options`, else the response itself, always truthy; an array response is kept |
| FormBuilder.OriginalSources | src/ftable.js:553-557 | the side table records only function and URL sources |
| FormBuilder.OriginalSourcesExact | src/ftable.js:553-557 | a field is in the side table iff its `options` is a function or a non-empty string, and then with that source |
| FormBuilder.OriginalSourcesAbsent | src/ftable.js:553-557 | a name that is not a field is not in the side table |
| FormBuilder.OriginalSurvivesResolution | src/ftable.js:843-844 | once recorded, a dynamic source is what dependent resolution uses even after the field's `options` was replaced by a resolved list |
| FormBuilder.MastersOf | src/ftable.js:676-687 | the masters of a string `dependsOn` are exactly the non-empty pieces of its split on `,`, trimmed; any other `dependsOn` names none |
| FormBuilder.RegisterStep | src/ftable.js:690-695 | one turn of the inner `forEach` pushes the field onto one master's list |
| FormBuilder.DependencyMapStep | src/ftable.js:675-697 | one turn of the outer `forEach` registers one field under each of its masters |
| FormBuilder.RegisterExact | src/ftable.js:690-695 | registering a field under a list of masters appends it to each master's list once per mention and creates missing lists |
| FormBuilder.DependencyMapExact | src/ftable.js:672-698 | the map inverts `dependsOn` exactly: a master is a key iff some field names it, and its list holds each field once per mention, in definition order |
| FormBuilder.DependentsMembers | src/ftable.js:675-697 | a field is among a master's dependents iff its own `dependsOn` names that master |
| FormBuilder.RefreshMatchesGraph | src/ftable.js:810-823 | for a named change and string `dependsOn` values, the handler re-resolves exactly the dependents the graph lists for that master that have an input and are included in the form |
| FormBuilder.RefreshMembers | src/ftable.js:810-823 | for a named change, a field is re-resolved iff it has an input, names the changed field in its `dependsOn`, and is included in the form; the handler does not throw |
| FormBuilder.RefreshAllMembers | src/ftable.js:810-823 | the initial pass (empty changed name) re-resolves exactly the rendered, included fields with a truthy `dependsOn`, whatever its type, and never throws |
| FormBuilder.RefreshAborts | src/ftable.js:810-823 | under a named change the handler throws (and reaches no later field) iff some field has a truthy `dependsOn` that is not a string, which has no `split` |
| FormBuilder.OptionsResolver.constructor | src/ftable.js:542-547 | empty side table and dependency map, with the shared cache |
| FormBuilder.OptionsResolver.StoreOriginalFieldOptions | src/ftable.js:550-558 | an empty side table is filled with the function and URL sources; a non-empty one is left as it is |
| FormBuilder.OptionsResolver.BuildDependencyMap | src/ftable.js:672-698 | the map is rebuilt from scratch as the exact inversion of the fields' `dependsOn` |
| FormBuilder.OptionsResolver.ResolveOptions | src/ftable.js:719-775 | a falsy source gives `[]`; an array or object is returned unchanged without touching the cache; a throwing provider rejects; a non-string URL gives `[]`; without `noCache` a truthy cached entry is returned; a failed fetch gives `[]` with the cache unchanged; otherwise the normalized response is returned and stored only when `noCache` is not set |
| FormData.BaseKey | src/ftable.js:3535-3536 | `key.slice(0, -2)` followed by `[]` gives the key back |
| FormData.ListKeyOf | src/ftable.js:3535-3536 | `name[]` is a list key whose base is `name` |
| FormData.CollectStep | src/ftable.js:3534-3553 | one turn of the loop adds one entry, unless an earlier turn threw |
| FormData.ThrowIsFinal | src/ftable.js:3534-3553 | once the loop throws, the whole call throws |
| FormData.GetFormData | src/ftable.js:3530-3556 | the loop computes the fold of the entries, including the `TypeError` case |
| FormData.PlainNamesCollapse | src/ftable.js:3542-3551 | without `name[]` entries the fold succeeds, and each name holds its one value, or the list of all its values in order when repeated |
| FormData.ListNamesCollect | src/ftable.js:3535-3540 | with only `name[]` entries the fold succeeds, and each base name holds all its values in order |
| FormData.ListAfterPlain | src/ftable.js:3537-3540 | a `name[]` entry after a non-empty plain `name` throws (a string has no `push`); after an empty one it starts a new list |
| Html.EscapeChar | src/ftable.js:215-222 | a special character becomes an entity `&...;`, any other stays |
| Html.EscapeHtml | src/ftable.js:213-222 | escaping never shortens the text, and the empty string comes back as is |
| Html.EscapeHtmlValue | src/ftable.js:213-223 | on any value: a falsy value comes back unchanged, a string comes back escaped, and the call throws iff the value is truthy and not a string (it has no `replace`) |
| Html.EscapeHtmlValueInverts | src/ftable.js:213-223 | whatever `escapeHtml` returns without throwing decodes back to its argument |
| Html.UnescapeEscape | src/ftable.js:213-222 | decoding the five entities gives the original text back |
| Html.EscapedIsInert | src/ftable.js:213-222 | the escaped text holds no `<`, `>`, `"` or `'` |
| Html.EscapePlain | src/ftable.js:222 | text without special characters is unchanged |
| Js.Or | src/ftable.js:3008-3009 | `a \|\| b` is one of its operands, truthy iff either operand is, and `a` whenever `a` is truthy |
| Js.Lookup | src/ftable.js:2935 | a key's value is found iff the key is present, and it is one of the entries |
| Js.Put | src/ftable.js:2180 | writing an existing key keeps the key order; a new key goes last; other entries are old ones |
| Js.Remove | src/ftable.js:2182 | `delete` removes the key and keeps every other entry |
| Js.LookupPut | src/ftable.js:2180 | after `o[k] = v`, `k` reads `v` and other keys read as before |
| Js.LookupRemove | src/ftable.js:2182 | after `delete o[k]`, `k` is absent and other keys read as before |
| Js.LookupAssign | src/ftable.js:2888-2891 | `{...base, ...extra}` reads a key from `extra` when it has it, from `base` otherwise |
| Js.PutDistinct | src/ftable.js:2180 | writing a key keeps the keys distinct |
| Js.RemoveDistinct | src/ftable.js:2182 | deleting a key keeps the keys distinct |
| Options.DeepMergeSpec | src/ftable.js:1447-1459 | the merge has the keys of both sides; a default the user does not set keeps its value, at every depth where both sides hold objects; every user setting wins at the leaves |
| Options.DeepMergeIntoEmpty | src/ftable.js:1447-1459 | merging into no defaults gives the user options back |
| Options.DeepMergeIdempotent | src/ftable.js:1447-1459 | merging the same options a second time changes nothing |
| Options.VerifyPageSize | src/ftable.js:1461-1465 | a page size among the offered sizes is kept and 0 (unset) stays 0; any other size becomes the first offered size, or unset when none is offered |
| Options.VerifyPageSizeIdempotent | src/ftable.js:1461-1465 | a verified page size passes the check unchanged |
| Paging.CeilDiv | src/ftable.js:3915 | `Math.ceil(a / b)` is the least `q` with `a <= q * b` |
| Paging.ClampPage | src/ftable.js:3915-3916 | the target page is at least 1 and at most the page count (or 1); a page in range is kept; one beyond goes to the last page; one below 1 goes to page 1 |
| Paging.ClampedPageHasRecords | src/ftable.js:3915-3916 | with records present, the clamped page starts inside the record range |
| Paging.PagingRangeBounds | src/ftable.js:3748-3749 | for a page in range, the info shows a non-empty range of at most one page inside `1..total` |
| Paging.Range | src/ftable.js:3900 | `1..n` as `Array.from` builds it |
| Paging.ShownFromSpec | src/ftable.js:3904-3911 | the numbers of an interval that are shown, strictly increasing |
| Paging.CalculatePageNumbersSpec | src/ftable.js:3898-3912 | up to 7 pages, all of them; beyond, a strictly increasing list holding exactly 1, 2, n-1, n and the current page's neighbours inside `1..n` |
| Sorting.EntryTexts | src/ftable.js:2922-2923 | one `field DIR` text per entry, in order |
| Sorting.ParseParts | src/ftable.js:1549-1574 | only entries for defined fields with `sorting !== false` survive |
| Sorting.ParseDefaultSorting | src/ftable.js:1545-1577 | `parseDefaultSorting` returns only sortable fields |
| Sorting.ParsePartOfText | src/ftable.js:1553-1568 | the `field DIR` text of an entry over a plain name parses back to that entry |
| Sorting.ParseSerialized | src/ftable.js:1549-1574 | the parts of a `jtSorting` string parse back to the list it was written from |
| Sorting.SortingParamRoundTrip | src/ftable.js:1545-1577 | `parseDefaultSorting` of the `jtSorting` string of a list of sortable, plain-named entries is that list |
| Sorting.FindIndex | src/ftable.js:3686 | `findIndex`: the first entry for the field, or -1 iff there is none |
| Sorting.CycleAbsent | src/ftable.js:3699 | an unsorted column is appended ASC, last, with the other entries unchanged |
| Sorting.CycleAsc | src/ftable.js:3690-3693 | an ASC entry turns DESC in place, with the other entries unchanged |
| Sorting.CycleDesc | src/ftable.js:3694-3696 | a DESC entry is removed, with the other entries unchanged |
| Sorting.CycleSpec | src/ftable.js:3686-3700 | the column ends up sorted iff it was unsorted or ASC, with the new direction (ASC from unsorted, DESC from ASC); the other columns keep their entries in order; fields stay distinct |
| Sorting.NextSortingSpec | src/ftable.js:3681-3714 | a click keeps fields distinct; the column is present iff it ended up sorted, with its new direction; a collapsing click leaves at most that entry; otherwise the other columns keep their entries and order |
| Sorting.ThreeClicksRestore | src/ftable.js:3686-3700 | with multi-sorting, three clicks on an unsorted column append it ASC, turn it DESC and remove it, restoring the list |
| Sorting.SingleSortClicks | src/ftable.js:3711-3714 | with single sorting, A, A, A gives `[A ASC]`, `[A DESC]`, `[]`, and B after A gives `[B ASC]` |
| Strings.TrimIdempotent | src/ftable.js:1566 | trimming a trimmed string changes nothing |
| Strings.TrimExact | src/ftable.js:1550 | `trim` gives the part of the string between its leading and trailing whitespace: only whitespace lies around it, and it neither starts nor ends with whitespace |
| Strings.Split | src/ftable.js:1549 | `split` on one character gives at least one piece, none holding the separator |
| Strings.JoinSplit | src/ftable.js:1549 | joining the pieces with the separator gives the string back |
| Strings.CsvNames | src/ftable.js:681-684 | the result is the pieces of the split on `,`, each trimmed, with the empty ones dropped, in order; so a name is in it iff it is non-empty and is a trimmed piece; no name holds a comma |
| Strings.BeforeFirst | src/ftable.js:68 | `url.split('?')[0]` is a prefix holding no `?`, followed by `?` when shorter |
| Strings.BeforeFirstIsFirstPiece | src/ftable.js:68 | it is the first piece of the split |
| Strings.UpperAscii | src/ftable.js:1553-1554 | upper-casing keeps the length and maps each character |
| Strings.IndexOf | src/ftable.js:1553-1554 | `indexOf` gives -1 or a position where the pattern occurs |
| Strings.IndexOfFirst | src/ftable.js:1553-1554 | no occurrence comes before the reported one, and none exists when -1 is reported |
| Strings.NatToString | src/ftable.js:44 | the digits read back as the number, with no leading zero |
| Strings.IntToString | src/ftable.js:44 | a minus sign iff the number is negative, followed by the digits of its magnitude, which read back as it, with no leading zero |
| Strings.LessIrreflexive | src/ftable.js:43 | the default `sort` order is irreflexive |
| Strings.LessTransitive | src/ftable.js:43 | the default `sort` order is transitive |
| Strings.LessTotal | src/ftable.js:43 | the default `sort` order relates any two distinct strings |
| Strings.LessAsymmetric | src/ftable.js:43 | the default `sort` order is asymmetric |
| TableState.SearchParams | src/ftable.js:2932-2940 | `q` and `opt` have equal length |
| TableState.CollectSearch | src/ftable.js:2932-2940 | the `forEach` over the queries fills `q` and `opt` with the non-empty queries and their fields, in entry order |
| TableState.SearchParamsPairs | src/ftable.js:2935-2940 | `q[i]` is a non-empty query given for field `opt[i]`, and every non-empty query appears |
| TableState.SearchParamsWellFormed | src/ftable.js:2935-2940 | with no empty query, `opt[i]` and `q[i]` are exactly the `i`-th field and query |
| TableState.ResponseOutcome | src/ftable.js:2976-2989 | the outcome is loaded iff there is a list action and the response is truthy with `Result === 'OK'`, and then it is that response; a rejected response fails with its truthy `Message`, or `Invalid response from server`; a transport error fails with its message; no list action fails with `No valid listAction provided` |
| TableState.WithoutField | src/ftable.js:4049 | the filter drops exactly the filters for the field |
| TableState.WithoutFieldKeepsOne | src/ftable.js:4049 | dropping a field's filters keeps at most one filter per field |
| TableState.FindColumn | src/ftable.js:3686 | the search loop finds the first entry for the field, or -1 |
| TableState.ClickColumn | src/ftable.js:3686-3714 | the in-place cycle and collapse compute the specified next sorting list |
| TableState.LoadParamsPaging | src/ftable.js:2912-2918 | with paging on, `jtStartIndex = (currentPage-1)*pageSize` and `jtPageSize = pageSize`; with paging off, neither is sent |
| TableState.LookupSortingValue | src/ftable.js:2920-2930 | the request's `jtSorting` is the sorting value when there is one, and is absent otherwise |
| TableState.LoadParamsSorting | src/ftable.js:2920-2930 | a non-empty sorting list is sent as its `jtSorting` string, which parses back to it; an empty list sends the parsed default sorting when one is set, and nothing otherwise |
| TableState.LoadParamsSearch | src/ftable.js:2931-2946 | with toolbar search on and queries set, `q` and `opt` hold the queries and their fields, position by position |
| TableState.SetQuerySpec | src/ftable.js:2176-2183 | after an input change, the field's query is the trimmed input, or is absent when that is empty; other queries are unchanged; queries stay trimmed, non-empty and one per field |
| TableState.QueryPut | src/ftable.js:2180 | storing a trimmed non-empty query sets it and keeps the others |
| TableState.QueryRemove | src/ftable.js:2182 | deleting a query removes it and keeps the others |
| TableState.CacheEntryFreshness | src/ftable.js:2957-2961 | a stored entry serves its data while no more than the duration has passed; one stamped 0 never serves |
| TableState.SecondLoadIgnored | src/ftable.js:2881-2883 | a load started while one is in flight sends nothing and changes nothing |
| TableState.WithFilterSpec | src/ftable.js:4043-4056 | the field has one filter, the last one, iff the value is kept; other fields' filters are unchanged; at most one filter per field is kept |
| TableState.Table.constructor | src/ftable.js:1375-1383 | the initial state: no records, total 0, page 1, not loading, no sorting, no queries, no filters |
| TableState.Table.BuildLoadParams | src/ftable.js:2909-2955 | the page size is defaulted once and nothing else changes; the request is the specified one |
| TableState.Table.AddPaging | src/ftable.js:2912-2918 | the page size is defaulted when unset, then `jtStartIndex` and `jtPageSize` are the paging part of the request |
| TableState.Table.AddSorting | src/ftable.js:2920-2930 | the `jtSorting` step |
| TableState.Table.AddSearch | src/ftable.js:2931-2946 | the `q`/`opt` step |
| TableState.Table.StartLoad | src/ftable.js:2880-2891 | while loading, nothing happens and nothing is sent; otherwise `isLoading` is raised and the caller's parameters are sent with the built ones over them |
| TableState.Table.PerformLoad | src/ftable.js:2963-3000 | a fresh cached entry for a URL action answers without a call; otherwise the checked response, stored with the time only when the list cache is on |
| TableState.Table.ProcessLoadedData | src/ftable.js:3002-3013 | on `Result === 'OK'`, records become `Records \|\| []` and the total `TotalRecordCount \|\| records.length`, where an object's `length` is its own property; otherwise the state is unchanged |
| TableState.Table.FinishLoad | src/ftable.js:2893-2901 | a loaded response is processed; `recordsLoaded` runs its listeners unless the records are accepted but neither empty nor an array, where `renderTableData` (reached from line 3010) throws at `forEach` (line 3028) and `load` catches it with the state already updated; without the event the emitter is unchanged; a failure changes only `isLoading`; `isLoading` always drops |
| TableState.Table.Load | src/ftable.js:2880-2902 | a load while another is in flight does nothing |
| TableState.Table.SortByColumn | src/ftable.js:3681-3719 | a missing or unsortable field changes nothing; otherwise the sorting list moves to the next one and a load starts from the new state |
| TableState.Table.ChangePage | src/ftable.js:3914-3922 | the target is clamped to the pages there are; the same page does nothing; another page is set and a load starts |
| TableState.Table.ChangePageSize | src/ftable.js:3924-3929 | the page size is set, the current page becomes 1, and a load starts |
| TableState.Table.HandleSearchInputChange | src/ftable.js:2173-2183 | the query update of an input change, keeping the state well formed |
| TableState.Table.ResetSearch | src/ftable.js:2192-2207 | every query is dropped and a load starts |
| TableState.Table.AddFilter | src/ftable.js:4043-4056 | the filters become the old ones without the field's, plus the new filter when the value is kept |

## Left out

- The HTTP client is not modelled. Its answer is an input of `ResolveOptions` and `PerformLoad`. The `forcePost` choice between GET and POST is one input, because both calls give the same kind of answer.
- User preferences (`saveState`, `loadState`, local storage, cookies) are not modelled. They are persistence outside the state machine.
- DOM construction is not modelled: forms, table, toolbar, modals, the loading indicator, header updates and rendering. Neither are column widths (floating-point), dates, CSV export, printing, WebSockets, keyboard shortcuts, child tables, the logger and `console` output.
- Timers and async interleaving are not modelled. This covers the search debounce: `HandleSearchInputChange` models the state update, and the load it schedules is a later `load` call. `load` is the synchronous sequence of guard, request, list action and processing. Two loads in flight at once are represented only by the `isLoading` flag.
- Numbers are integers, and NaN, Infinity and floating-point division are not modelled. `TableState.Table.ChangePage` requires a numeric total and a positive page size. With an unset page size, or a zero page size and no records, the page count and the target page are NaN. With a zero page size and some records the page count is Infinity, and any page from 1 up is accepted.
- `Strings.UpperAscii`: upper-cases only ASCII letters. A field name with non-ASCII letters whose upper-case differs is not modelled.
- Strings are sequences of Unicode scalar values, not UTF-16 code units. Lengths and the default sort order differ from JavaScript's only for characters outside the Basic Multilingual Plane.
- Inherited properties of JavaScript objects are not modelled. A field named like an `Object.prototype` property (`toString`, `constructor`) reads as absent, in `fields[name]` and in `getFormData`'s `data[key]`.
- `Options.DeepMergeSpec`: spreading a string or array default under a user object (`{..."ab"}`) gives no properties here, where JavaScript copies its indices. Key order inside a merged object is not modelled.
- `TableState.IsCacheExpired`: a truthy timestamp that is not a number never expires (NaN comparison). Times are integers.
- `getFormData`: `File` values are not modelled. Entry values are strings.
- `FTable` extends `FTableEventEmitter`. Here the table holds an emitter instead (composition).
- `state.pageSize` starts `undefined` and `state.filters` starts missing. Here they are 0 and `[]`, and both count as unset in every modelled branch (`!pageSize`, `!filters`).
- `TableState.Table.Load`: states only the in-flight case and that `isLoading` ends as it started. The full effect of a completed load is stated by `StartLoad`, `PerformLoad` and `FinishLoad`, which it calls in order.
- `TableState.Table.ProcessLoadedData`: a `null` or `undefined` response would throw in the source. Here it leaves the state unchanged. It is only reached with a checked response.
- `TableState.Table.ProcessLoadedData`: a function has a `length` (its arity) in JavaScript. Here a function as `Records` has none, so the total falls back to `undefined` and `FinishLoad` counts it as a rendering failure.
- `TableState.Table.FinishLoad`: only the `forEach` on records that are not an array is modelled as a rendering failure. The other throws inside `renderTableData` and `updatePagingInfo` also cancel `recordsLoaded`, and they are not modelled. Examples are a `null` record read with `record[keyField]` when a key field is set or with `record[fieldName]` for a column, a throwing `display` function, and `escapeHtml` on a truthy non-string cell value.
- The handler of `handleDependencyChange` is modelled as its filter only. The DOM reads (`dependedValues`), the per-field `resolveOptions` call and populating the inputs are not modelled.
- `createForm`, `resolveNonDependantFieldOptions` and `resolveAsyncFieldOptions` are not modelled. They are DOM and asynchronous plumbing around `resolveOptions`.
- `FTableOptionsCache.size` is `Cache.OptionsCache.Size`, the number of keys, with no further contract.
- A provider function that returns a list of options (an array) gets `[]`: a result with no `url` is taken as the URL itself, and an array is not a string. The comment at src/ftable.js:739 names a string or `{ url, noCache }` as what a provider returns. The model follows the code (`FormBuilder.RequestTarget`, `FormBuilder.OptionsResolver.ResolveOptions`).
- `Js.Entries`: object keys are kept in insertion order. JavaScript lists integer-like keys (`"2"`, `"10"`) first, in numeric order, in `Object.keys` and `Object.entries`. For field names or search fields of that form, the column list, the `q`/`opt` order and the definition order of the dependency map differ from the model.
- `Js.ToJsString`: a function value renders as `"function"`. JavaScript renders its source text, so two different functions passed as request parameters share a cache key here but not in the source.

## Findings

| source | as written | input that shows it | evidently intended | confidence | as-written member | corrected member |
|---|---|---|---|---|---|---|
| src/ftable.js:103-104, 117-122 | `off(event, callback)` keeps every listener that is not `===` to `callback`, and a `once` wrapper never is, although `wrapper.fn = callback` is set "for off() to match" | `once('e', cb)` then `off('e', cb)`: the wrapper stays and `cb` still runs on the next `emit('e')` | `off` also removes the `once` wrapper whose `fn` is `callback` | medium, not executed | Events.OffAsWrittenMissesOnce | Events.RemoveCallbackExact |
