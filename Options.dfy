/** Option handling of the table: `deepMerge` of user options over the
    defaults, and `verifyOptions`' page-size check. */
module Options {
  import opened Wrappers
  import opened Js

  /** `{...v}` for the values the merge meets: an object's own properties,
      nothing for any other value. */
  function Spread(v: JsValue): map<string, JsValue> {
    if v.Obj? then v.props else map[]
  }

  /** `source[key] && typeof source[key] === 'object' && !Array.isArray(source[key])` */
  predicate IsPlainObject(v: JsValue) {
    v.Obj?
  }

  /** `deepMerge(target, source)`: a copy of `target` with every property of
      `source` written over it, plain objects merged property by property. */
  function DeepMerge(target: map<string, JsValue>, source: map<string, JsValue>): (r: map<string, JsValue>)
    decreases Obj(source)
  {
    map k | k in target.Keys + source.Keys ::
      if k !in source then target[k]
      else if IsPlainObject(source[k]) then
        Obj(DeepMerge(Spread(Or(if k in target then target[k] else Undefined, Obj(map[]))), source[k].props))
      else source[k]
  }

  /** Every property of `source` is in `merged`: plain objects recursively,
      any other value exactly. */
  ghost predicate Covers(merged: map<string, JsValue>, source: map<string, JsValue>)
    decreases Obj(source)
  {
    forall k :: k in source ==>
      k in merged
      && (if IsPlainObject(source[k])
          then merged[k].Obj? && Covers(merged[k].props, source[k].props)
          else merged[k] == source[k])
  }

  /** Every default of `target` survives in `merged` unless `source` sets
      that key: unset keys keep their value, and where both sides hold
      objects the nested defaults survive in the same way. */
  ghost predicate KeepsDefaults(merged: map<string, JsValue>, target: map<string, JsValue>, source: map<string, JsValue>)
    decreases Obj(source)
  {
    forall k :: k in target ==>
      k in merged
      && (k !in source ==> merged[k] == target[k])
      && (k in source && IsPlainObject(source[k]) && IsPlainObject(target[k]) ==>
            merged[k].Obj? && KeepsDefaults(merged[k].props, target[k].props, source[k].props))
  }

  /** The merge keeps every key of both sides, keeps the defaults that the
      user does not set (at every depth of nested objects), and lets every
      user setting win at the leaves. */
  lemma {:induction false} DeepMergeSpec(target: map<string, JsValue>, source: map<string, JsValue>)
    ensures var r := DeepMerge(target, source);
      r.Keys == target.Keys + source.Keys
      && (forall k :: k in target && k !in source ==> r[k] == target[k])
      && Covers(r, source)
      && KeepsDefaults(r, target, source)
    decreases Obj(source)
  {
    var r := DeepMerge(target, source);
    forall k | k in source && IsPlainObject(source[k])
      ensures r[k].Obj? && Covers(r[k].props, source[k].props)
      ensures k in target && IsPlainObject(target[k]) ==> KeepsDefaults(r[k].props, target[k].props, source[k].props)
    {
      var inner := Spread(Or(if k in target then target[k] else Undefined, Obj(map[])));
      DeepMergeSpec(inner, source[k].props);
      assert k in target && IsPlainObject(target[k]) ==> inner == target[k].props;
    }
  }

  /** With no defaults, the merge gives back the user options. */
  lemma {:induction false} DeepMergeIntoEmpty(source: map<string, JsValue>)
    ensures DeepMerge(map[], source) == source
    decreases Obj(source)
  {
    var r := DeepMerge(map[], source);
    forall k | k in source && IsPlainObject(source[k])
      ensures r[k] == source[k]
    {
      DeepMergeIntoEmpty(source[k].props);
    }
  }

  /** Merging the same options a second time changes nothing. */
  lemma {:induction false} DeepMergeIdempotent(target: map<string, JsValue>, source: map<string, JsValue>)
    ensures DeepMerge(DeepMerge(target, source), source) == DeepMerge(target, source)
    decreases Obj(source)
  {
    var m := DeepMerge(target, source);
    var r := DeepMerge(m, source);
    forall k | k in source && IsPlainObject(source[k])
      ensures r[k] == m[k]
    {
      var inner := Spread(Or(if k in target then target[k] else Undefined, Obj(map[])));
      DeepMergeIdempotent(inner, source[k].props);
    }
  }

  /** `verifyOptions`: a set page size that is not one of the offered page
      sizes is replaced by the first of them (`undefined`, here `None`,
      when none is offered). A page size of 0 counts as unset. */
  function VerifyPageSize(pageSize: int, pageSizes: seq<int>): (r: Option<int>)
    ensures pageSizes != [] ==> r.Some? && (r.value == 0 || r.value in pageSizes)
    ensures pageSize in pageSizes ==> r == Some(pageSize)
    ensures pageSize == 0 ==> r == Some(0)
    ensures pageSize != 0 && pageSize !in pageSizes ==>
      r == (if pageSizes == [] then None else Some(pageSizes[0]))
  {
    if pageSize != 0 && pageSize !in pageSizes then
      (if pageSizes == [] then None else Some(pageSizes[0]))
    else Some(pageSize)
  }

  /** A verified page size passes the check unchanged. */
  lemma VerifyPageSizeIdempotent(pageSize: int, pageSizes: seq<int>)
    requires VerifyPageSize(pageSize, pageSizes).Some?
    ensures var v := VerifyPageSize(pageSize, pageSizes).value;
      VerifyPageSize(v, pageSizes) == Some(v)
  {
  }
}
