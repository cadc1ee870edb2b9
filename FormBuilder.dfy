/** `FTableFormBuilder`: the options resolver (static lists, provider
    functions and URLs, with the shared cache and the `noCache` override),
    the side table of original option sources, and the dependency graph
    between master and dependent fields. */
module FormBuilder {
  import opened Wrappers
  import opened Js
  import opened Fields
  import Strings
  import Cache

  /** What the provider function `field.options(params)` did, as seen by
      `resolveOptions`: returned `result`, having called `clearCache()` or
      not, or threw. */
  datatype ProviderOutcome = Returned(result: JsValue, clearedCache: bool) | Threw

  /** What the transport answered for the options URL. */
  datatype FetchOutcome = Fetched(body: JsValue) | FetchFailed

  /** The value `resolveOptions` settles with, or its rejection (a provider
      that throws is not caught there). */
  datatype Resolution = Resolved(options: JsValue) | Rejected

  /** The part of a provider's result that decides the request:
      `{url, noCache}` when the result is an object with a truthy `url`,
      otherwise the result itself as the URL, with the flag `clearCache()` set. */
  function RequestTarget(result: JsValue, clearedCache: bool): (t: (JsValue, JsValue))
    ensures var isObject := (result.Obj? || result.Arr?) && Truthy(Get(result, "url"));
      && (isObject ==> t.0 == Get(result, "url"))
      && (!isObject ==> t.0 == result)
      && (isObject && Get(result, "noCache") != Undefined ==> t.1 == Get(result, "noCache"))
      && (!(isObject && Get(result, "noCache") != Undefined) ==> t.1 == Bool(clearedCache))
  {
    var isObject := Truthy(result) && (result.Obj? || result.Arr?) && Truthy(Get(result, "url"));
    var url := if isObject then Get(result, "url") else result;
    var noCache := if isObject && Get(result, "noCache") != Undefined then Get(result, "noCache") else Bool(clearedCache);
    (url, noCache)
  }

  /** An explicit `noCache` in a `{url, noCache}` result wins over a call
      to `clearCache()`, in both directions. */
  lemma ExplicitNoCacheWins(url: string, flag: bool, cleared: bool)
    requires url != ""
    ensures RequestTarget(Obj(map["url" := Str(url), "noCache" := Bool(flag)]), cleared)
            == (Str(url), Bool(flag))
  {
  }

  /** `response.Options || response.options || response || []` */
  function Normalize(body: JsValue): (r: JsValue)
    ensures Truthy(r)
    ensures Truthy(Get(body, "Options")) ==> r == Get(body, "Options")
    ensures !Truthy(Get(body, "Options")) && Truthy(Get(body, "options")) ==> r == Get(body, "options")
    ensures body.Arr? ==> r == body
  {
    Or(Or(Or(Get(body, "Options"), Get(body, "options")), body), Arr([]))
  }

  /** The options source a field resolves from: the recorded original,
      or else the field's current `options`. */
  function SourceFor(originals: map<string, JsValue>, name: string, f: Field): JsValue {
    Or(if name in originals then originals[name] else Undefined, f.options)
  }

  /** A function or URL source: the only kind the side table records. */
  predicate IsDynamicSource(v: JsValue) {
    Truthy(v) && (v.Func? || v.Str?)
  }

  /** The side table `storeOriginalFieldOptions` builds from the fields. */
  function OriginalSources(fs: FieldList): (m: map<string, JsValue>)
    ensures forall n :: n in m ==> IsDynamicSource(m[n])
  {
    if fs == [] then map[]
    else
      var m := OriginalSources(fs[..|fs| - 1]);
      var (name, f) := fs[|fs| - 1];
      if IsDynamicSource(f.options) then m[name := f.options] else m
  }

  /** The side table holds exactly the fields with a function or URL
      source, each with that source. */
  lemma {:induction false} OriginalSourcesExact(fs: FieldList, i: nat)
    requires DistinctKeys(fs) && i < |fs|
    ensures fs[i].0 in OriginalSources(fs) <==> IsDynamicSource(fs[i].1.options)
    ensures fs[i].0 in OriginalSources(fs) ==> OriginalSources(fs)[fs[i].0] == fs[i].1.options
  {
    var init := fs[..|fs| - 1];
    if i < |fs| - 1 {
      assert init[i] == fs[i];
      OriginalSourcesExact(init, i);
    } else {
      OriginalSourcesAbsent(init, fs[i].0);
    }
  }

  lemma {:induction false} OriginalSourcesAbsent(fs: FieldList, name: string)
    requires forall j :: 0 <= j < |fs| ==> fs[j].0 != name
    ensures name !in OriginalSources(fs)
  {
    if fs != [] {
      OriginalSourcesAbsent(fs[..|fs| - 1], name);
    }
  }

  /** Once recorded, a dynamic source survives the field's `options`
      being overwritten with a resolved list: dependent fields re-resolve
      from the original provider. */
  lemma OriginalSurvivesResolution(fs: FieldList, i: nat, resolved: JsValue)
    requires DistinctKeys(fs) && i < |fs|
    requires IsDynamicSource(fs[i].1.options)
    ensures SourceFor(OriginalSources(fs), fs[i].0, fs[i].1.(options := resolved)) == fs[i].1.options
  {
    OriginalSourcesExact(fs, i);
  }

  /** The master fields a field names in a string `dependsOn`; any other
      `dependsOn` registers nothing. */
  function MastersOf(f: Field): (ms: seq<string>)
    ensures forall k :: 0 <= k < |ms| ==> ms[k] != ""
    ensures Truthy(f.dependsOn) && f.dependsOn.Str? ==>
      forall x :: x in ms <==> x != "" && x in Strings.TrimAll(Strings.Split(f.dependsOn.s, ','))
    ensures !(Truthy(f.dependsOn) && f.dependsOn.Str?) ==> ms == []
  {
    if Truthy(f.dependsOn) && f.dependsOn.Str? then Strings.CsvNames(f.dependsOn.s) else []
  }

  /** `dependencies.get(master).push(name)`, creating the list if needed. */
  function AddDependent(m: map<string, seq<string>>, master: string, name: string): map<string, seq<string>> {
    m[master := (if master in m then m[master] else []) + [name]]
  }

  /** Registering `name` under each of `masters`, in order. */
  function Register(m: map<string, seq<string>>, masters: seq<string>, name: string): map<string, seq<string>>
  {
    if masters == [] then m
    else AddDependent(Register(m, masters[..|masters| - 1], name), masters[|masters| - 1], name)
  }

  /** The map `buildDependencyMap` builds from the fields, in order. */
  function DependencyMap(fs: FieldList): map<string, seq<string>>
  {
    if fs == [] then map[]
    else Register(DependencyMap(fs[..|fs| - 1]), MastersOf(fs[|fs| - 1].1), fs[|fs| - 1].0)
  }

  lemma RegisterStep(m: map<string, seq<string>>, masters: seq<string>, j: nat, name: string)
    requires j < |masters|
    ensures Register(m, masters[..j + 1], name) == AddDependent(Register(m, masters[..j], name), masters[j], name)
  {
    assert masters[..j + 1][..j] == masters[..j];
  }

  lemma DependencyMapStep(fs: FieldList, i: nat)
    requires i < |fs|
    ensures DependencyMap(fs[..i + 1]) == Register(DependencyMap(fs[..i]), MastersOf(fs[i].1), fs[i].0)
  {
    assert fs[..i + 1][..i] == fs[..i];
  }

  /** Occurrences of `x` in `s`. */
  function Count(s: seq<string>, x: string): nat {
    if s == [] then 0 else Count(s[..|s| - 1], x) + (if s[|s| - 1] == x then 1 else 0)
  }

  function Repeat(x: string, n: nat): (r: seq<string>)
    ensures |r| == n && forall k :: 0 <= k < n ==> r[k] == x
  {
    if n == 0 then [] else Repeat(x, n - 1) + [x]
  }

  /** The dependents of `master`, defined field by field: each field once
      per mention of `master` in its own `dependsOn`, in definition order. */
  function Dependents(fs: FieldList, master: string): seq<string> {
    if fs == [] then []
    else Dependents(fs[..|fs| - 1], master) + Repeat(fs[|fs| - 1].0, Count(MastersOf(fs[|fs| - 1].1), master))
  }

  lemma {:induction false} RegisterExact(m: map<string, seq<string>>, masters: seq<string>, name: string, master: string)
    ensures var r := Register(m, masters, name);
      var before := if master in m then m[master] else [];
      (master in r <==> master in m || Count(masters, master) > 0)
      && (master in r ==> r[master] == before + Repeat(name, Count(masters, master)))
  {
    if masters != [] {
      var init := masters[..|masters| - 1];
      RegisterExact(m, init, name, master);
      var r0 := Register(m, init, name);
      var before := if master in m then m[master] else [];
      if masters[|masters| - 1] == master {
        assert Repeat(name, Count(masters, master)) == Repeat(name, Count(init, master)) + [name];
        if master in r0 {
          assert r0[master] == before + Repeat(name, Count(init, master));
        } else {
          assert Count(init, master) == 0 && before == [];
        }
      }
    }
  }

  /** `buildDependencyMap` inverts the `dependsOn` lists exactly: a master
      is a key iff some field names it, and its list holds each field once
      per mention, in definition order. */
  lemma {:induction false} DependencyMapExact(fs: FieldList, master: string)
    ensures master in DependencyMap(fs) <==> Dependents(fs, master) != []
    ensures master in DependencyMap(fs) ==> DependencyMap(fs)[master] == Dependents(fs, master)
  {
    if fs != [] {
      var init := fs[..|fs| - 1];
      DependencyMapExact(init, master);
      RegisterExact(DependencyMap(init), MastersOf(fs[|fs| - 1].1), fs[|fs| - 1].0, master);
    }
  }

  lemma {:induction false} CountPositive(s: seq<string>, x: string)
    ensures Count(s, x) > 0 <==> x in s
  {
    if s != [] {
      CountPositive(s[..|s| - 1], x);
      assert s == s[..|s| - 1] + [s[|s| - 1]];
    }
  }

  /** Field entry `f` is named `name` and lists `master` in its `dependsOn`. */
  predicate Names(f: (string, Field), master: string, name: string) {
    f.0 == name && master in MastersOf(f.1)
  }

  /** Some field named `name` lists `master` in its `dependsOn`. */
  predicate Declares(fs: FieldList, master: string, name: string) {
    exists i :: 0 <= i < |fs| && Names(fs[i], master, name)
  }

  lemma DeclaresSnoc(fs: FieldList, master: string, name: string)
    requires fs != []
    ensures Declares(fs, master, name) <==>
      Declares(fs[..|fs| - 1], master, name) || Names(fs[|fs| - 1], master, name)
  {
    ExistsSnoc(fs, fs[..|fs| - 1], f => Names(f, master, name));
  }

  lemma ExistsSnoc<T>(s: seq<T>, init: seq<T>, p: T -> bool)
    requires s != [] && init == s[..|s| - 1]
    ensures (exists i :: 0 <= i < |s| && p(s[i])) <==>
      (exists i :: 0 <= i < |init| && p(init[i])) || p(s[|s| - 1])
  {
    if exists i :: 0 <= i < |init| && p(init[i]) {
      var i :| 0 <= i < |init| && p(init[i]);
      assert init[i] == s[i];
    }
  }

  lemma ExistsCons<T>(s: seq<T>, p: T -> bool)
    requires s != []
    ensures (exists i :: 0 <= i < |s| && p(s[i])) <==>
      p(s[0]) || (exists i :: 0 <= i < |s[1..]| && p(s[1..][i]))
  {
    if exists i :: 0 <= i < |s[1..]| && p(s[1..][i]) {
      var i :| 0 <= i < |s[1..]| && p(s[1..][i]);
      assert s[1..][i] == s[i + 1];
    }
    if exists i :: 0 <= i < |s| && p(s[i]) {
      var i :| 0 <= i < |s| && p(s[i]);
      if i > 0 { assert s[i] == s[1..][i - 1]; }
    }
  }

  /** A field is among the dependents of `master` exactly when its own
      `dependsOn` names `master`. */
  lemma {:induction false} DependentsMembers(fs: FieldList, master: string, name: string)
    ensures name in Dependents(fs, master) <==> Declares(fs, master, name)
  {
    if fs != [] {
      var init := fs[..|fs| - 1];
      var last := fs[|fs| - 1];
      DependentsMembers(init, master, name);
      DeclaresSnoc(fs, master, name);
      CountPositive(MastersOf(last.1), master);
      RepeatMembers(last.0, Count(MastersOf(last.1), master), name);
    }
  }

  lemma RepeatMembers(x: string, n: nat, y: string)
    ensures y in Repeat(x, n) <==> y == x && n > 0
  {
    if y == x && n > 0 { assert Repeat(x, n)[0] == y; }
  }

  /** The dependent filter of `handleDependencyChange`: the fields whose
      options are re-resolved after `changed` changed (`""` means the
      initial pass over every dependent field). A field is skipped when it
      has no `dependsOn`, when `changed` is not among its masters, when it
      has no input in the form (`rendered`), or when the form leaves it out.
      A truthy `dependsOn` that is not a string cannot be split: the
      handler throws there and the remaining fields are not reached, which
      `aborted` reports. */
  function FieldsToRefresh(fs: FieldList, changed: string, formType: string, rendered: set<string>): (r: (seq<string>, bool))
  {
    if fs == [] then ([], false)
    else
      var (name, f) := fs[0];
      if !Truthy(f.dependsOn) then FieldsToRefresh(fs[1..], changed, formType, rendered)
      else if changed != "" && !f.dependsOn.Str? then ([], true)
      else if changed != "" && changed !in Strings.CsvNames(f.dependsOn.s) then FieldsToRefresh(fs[1..], changed, formType, rendered)
      else if name !in rendered || !ShouldIncludeField(f, formType) then FieldsToRefresh(fs[1..], changed, formType, rendered)
      else
        var (rest, aborted) := FieldsToRefresh(fs[1..], changed, formType, rendered);
        ([name] + rest, aborted)
  }

  /** Every `dependsOn` is a string or falsy. */
  predicate WellTypedDependsOn(fs: FieldList) {
    forall i :: 0 <= i < |fs| ==> !Truthy(fs[i].1.dependsOn) || fs[i].1.dependsOn.Str?
  }

  /** The change handler and the dependency graph agree: with string
      `dependsOn` values, a change of `changed` re-resolves exactly the
      dependents the graph lists for it that are rendered and included. */
  lemma {:induction false} RefreshMatchesGraph(fs: FieldList, changed: string, formType: string, rendered: set<string>, name: string)
    requires DistinctKeys(fs) && WellTypedDependsOn(fs) && changed != ""
    ensures !FieldsToRefresh(fs, changed, formType, rendered).1
    ensures name in FieldsToRefresh(fs, changed, formType, rendered).0 <==>
      (changed in DependencyMap(fs) && name in DependencyMap(fs)[changed]
       && name in rendered
       && exists i :: 0 <= i < |fs| && fs[i].0 == name && ShouldIncludeField(fs[i].1, formType))
  {
    DependencyMapExact(fs, changed);
    DependentsMembers(fs, changed, name);
    RefreshMembers(fs, changed, formType, rendered, name);
  }

  lemma {:induction false} RefreshMembers(fs: FieldList, changed: string, formType: string, rendered: set<string>, name: string)
    requires WellTypedDependsOn(fs) && changed != ""
    ensures !FieldsToRefresh(fs, changed, formType, rendered).1
    ensures name in FieldsToRefresh(fs, changed, formType, rendered).0 <==>
      (name in rendered && (exists i :: 0 <= i < |fs| && fs[i].0 == name
                              && changed in MastersOf(fs[i].1) && ShouldIncludeField(fs[i].1, formType)))
  {
    if fs != [] {
      assert WellTypedDependsOn(fs[1..]);
      RefreshMembers(fs[1..], changed, formType, rendered, name);
      RefreshNamedStep(fs, changed, formType, rendered);
      ExistsCons(fs, (e: (string, Field)) => e.0 == name && changed in MastersOf(e.1) && ShouldIncludeField(e.1, formType));
    }
  }

  /** One field of the handler's loop under a named change, with string
      `dependsOn` values: the field is taken iff it names the change, has
      an input and is included. */
  lemma RefreshNamedStep(fs: FieldList, changed: string, formType: string, rendered: set<string>)
    requires fs != [] && WellTypedDependsOn(fs) && changed != ""
    ensures var (name, f) := fs[0];
      var rest := FieldsToRefresh(fs[1..], changed, formType, rendered);
      FieldsToRefresh(fs, changed, formType, rendered) ==
        if changed in MastersOf(f) && name in rendered && ShouldIncludeField(f, formType)
        then ([name] + rest.0, rest.1) else rest
  {
    var f := fs[0].1;
    assert Truthy(f.dependsOn) ==> MastersOf(f) == Strings.CsvNames(f.dependsOn.s);
  }

  /** The initial pass (`changed == ""`) re-resolves every rendered,
      included field with a truthy `dependsOn`, whatever its type, and
      never throws. */
  lemma {:induction false} RefreshAllMembers(fs: FieldList, formType: string, rendered: set<string>, name: string)
    ensures !FieldsToRefresh(fs, "", formType, rendered).1
    ensures name in FieldsToRefresh(fs, "", formType, rendered).0 <==>
      (name in rendered && (exists i :: 0 <= i < |fs| && fs[i].0 == name
                              && Truthy(fs[i].1.dependsOn) && ShouldIncludeField(fs[i].1, formType)))
  {
    if fs != [] {
      RefreshAllMembers(fs[1..], formType, rendered, name);
      ExistsCons(fs, (e: (string, Field)) => e.0 == name && Truthy(e.1.dependsOn) && ShouldIncludeField(e.1, formType));
    }
  }

  /** Under a named change, the handler throws (and stops) exactly when
      some field has a truthy `dependsOn` that is not a string. */
  lemma {:induction false} RefreshAborts(fs: FieldList, changed: string, formType: string, rendered: set<string>)
    requires changed != ""
    ensures FieldsToRefresh(fs, changed, formType, rendered).1 <==>
      exists i :: 0 <= i < |fs| && Truthy(fs[i].1.dependsOn) && !fs[i].1.dependsOn.Str?
  {
    if fs != [] {
      RefreshAborts(fs[1..], changed, formType, rendered);
      ExistsCons(fs, (e: (string, Field)) => Truthy(e.1.dependsOn) && !e.1.dependsOn.Str?);
    }
  }

  /** The builder's state: the shared cache, the fields as they are now
      (their `options` may have been replaced by resolved lists), the side
      table of original sources and the dependency map. */
  class OptionsResolver {
    const cache: Cache.OptionsCache
    var fields: FieldList
    var originalFieldOptions: map<string, JsValue>
    var dependencies: map<string, seq<string>>

    constructor (fs: FieldList, cache: Cache.OptionsCache)
      ensures this.cache == cache && fields == fs
      ensures originalFieldOptions == map[] && dependencies == map[]
    {
      this.cache := cache;
      fields := fs;
      originalFieldOptions := map[];
      dependencies := map[];
    }

    /** `storeOriginalFieldOptions`: records the function and URL sources,
        but only while the side table is still empty. */
    method StoreOriginalFieldOptions()
      modifies this`originalFieldOptions
      ensures |old(originalFieldOptions)| > 0 ==> originalFieldOptions == old(originalFieldOptions)
      ensures |old(originalFieldOptions)| == 0 ==> originalFieldOptions == OriginalSources(fields)
    {
      if |originalFieldOptions| > 0 {
        return;
      }
      var i := 0;
      while i < |fields|
        invariant 0 <= i <= |fields|
        invariant originalFieldOptions == OriginalSources(fields[..i])
      {
        var (name, f) := fields[i];
        assert fields[..i + 1][..i] == fields[..i];
        if IsDynamicSource(f.options) {
          originalFieldOptions := originalFieldOptions[name := f.options];
        }
        i := i + 1;
      }
      assert fields[..i] == fields;
    }

    /** `buildDependencyMap`: clears the map, then registers each field
        under each master its string `dependsOn` names. */
    method BuildDependencyMap()
      modifies this`dependencies
      ensures dependencies == DependencyMap(fields)
    {
      dependencies := map[];
      var i := 0;
      while i < |fields|
        invariant 0 <= i <= |fields|
        invariant dependencies == DependencyMap(fields[..i])
      {
        var name := fields[i].0;
        var masters := MastersOf(fields[i].1);
        ghost var before := dependencies;
        var j := 0;
        while j < |masters|
          invariant 0 <= j <= |masters|
          invariant dependencies == Register(before, masters[..j], name)
        {
          var master := masters[j];
          RegisterStep(before, masters, j, name);
          var current := if master in dependencies then dependencies[master] else [];
          dependencies := dependencies[master := current + [name]];
          j := j + 1;
        }
        assert masters[..j] == masters;
        DependencyMapStep(fields, i);
        i := i + 1;
      }
      assert fields[..i] == fields;
    }

    /** `resolveOptions(field, params)` for a field whose options source is
        `source`. `provider` is what the source function does when called,
        `response` what the transport answers for the URL; each is used
        only when the source code gets that far. */
    method ResolveOptions(source: JsValue, provider: ProviderOutcome, response: FetchOutcome)
      returns (r: Resolution)
      modifies cache
      ensures !Truthy(source) ==> r == Resolved(Arr([])) && cache.entries == old(cache.entries)
      ensures Truthy(source) && (source.Arr? || source.Obj?) ==>
        r == Resolved(source) && cache.entries == old(cache.entries)
      ensures source.Func? && provider.Threw? ==> r == Rejected && cache.entries == old(cache.entries)
      ensures r.Rejected? ==> source.Func? && provider.Threw?
      ensures (source.Num? || source.Bool?) ==> r == Resolved(Arr([])) && cache.entries == old(cache.entries)
      ensures (source.Func? && provider.Returned?) || (source.Str? && source.s != "") ==>
        var (url, noCache) := if source.Func? then RequestTarget(provider.result, provider.clearedCache)
                              else (source, Bool(false));
        if !url.Str? then
          r == Resolved(Arr([])) && cache.entries == old(cache.entries)
        else if !Truthy(noCache) && Truthy(old(cache.Get(url.s, []))) then
          r == Resolved(old(cache.Get(url.s, []))) && cache.entries == old(cache.entries)
        else if response.FetchFailed? || IsNullish(response.body) then
          r == Resolved(Arr([])) && cache.entries == old(cache.entries)
        else
          r == Resolved(Normalize(response.body))
          && (Truthy(noCache) ==> cache.entries == old(cache.entries))
          && (!Truthy(noCache) ==>
                cache.entries == old(cache.entries)[Cache.GenerateKey(url.s, []) := Normalize(response.body)])
    {
      if !Truthy(source) {
        return Resolved(Arr([]));
      }
      if source.Arr? || source.Obj? {
        return Resolved(source);
      }
      var result: JsValue;
      var noCache := false;
      if source.Func? {
        if provider.Threw? {
          return Rejected;
        }
        result := provider.result;
        noCache := provider.clearedCache;   // the `clearCache()` callback
      } else if source.Str? {
        result := source;
      } else {
        return Resolved(Arr([]));
      }
      var (url, noCacheValue) := RequestTarget(result, noCache);
      if !url.Str? {
        return Resolved(Arr([]));
      }
      if !Truthy(noCacheValue) {
        var cached := cache.Get(url.s, []);
        if Truthy(cached) {
          return Resolved(cached);
        }
      }
      if response.FetchFailed? || IsNullish(response.body) {
        // the transport rejected, or reading `.Options` of the body threw
        return Resolved(Arr([]));
      }
      var options := Normalize(response.body);
      if !Truthy(noCacheValue) {
        cache.Set(url.s, [], options);
      }
      return Resolved(options);
    }
  }
}
