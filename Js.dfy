/** The JavaScript values the table passes around (options, field
    attributes, server responses, request parameters), JavaScript
    truthiness, property reads, `String(v)`, and objects whose key order
    matters, kept as association lists. */
module Js {
  import opened Wrappers
  import Strings

  /** A JavaScript value. Numbers are integers; a function is an opaque id. */
  datatype JsValue =
    | Undefined
    | Null
    | Bool(b: bool)
    | Num(n: int)
    | Str(s: string)
    | Arr(items: seq<JsValue>)
    | Obj(props: map<string, JsValue>)
    | Func(id: nat)

  /** JavaScript's `!!v`. */
  predicate Truthy(v: JsValue) {
    match v
    case Undefined => false
    case Null => false
    case Bool(b) => b
    case Num(n) => n != 0
    case Str(s) => s != ""
    case _ => true
  }

  /** `v === null || v === undefined`: reading a property of it throws. */
  predicate IsNullish(v: JsValue) {
    v == Undefined || v == Null
  }

  /** `v[key]` on a value that is not nullish: an own property of an object,
      `undefined` otherwise. */
  function Get(v: JsValue, key: string): (r: JsValue)
    ensures v.Obj? && key in v.props ==> r == v.props[key]
    ensures !v.Obj? || key !in v.props ==> r == Undefined
  {
    if v.Obj? && key in v.props then v.props[key] else Undefined
  }

  /** `a || b`: one of the two operands, truthy iff either is, and the
      left one whenever it is truthy. */
  function Or(a: JsValue, b: JsValue): (r: JsValue)
    ensures r == a || r == b
    ensures Truthy(r) <==> Truthy(a) || Truthy(b)
    ensures Truthy(a) ==> r == a
  {
    if Truthy(a) then a else b
  }

  /** `String(v)`, as a template literal renders a parameter value. */
  function ToJsString(v: JsValue): string {
    match v
    case Undefined => "undefined"
    case Null => "null"
    case Bool(b) => if b then "true" else "false"
    case Num(n) => Strings.IntToString(n)
    case Str(s) => s
    case Arr(items) =>
      Strings.Join(seq(|items|, i requires 0 <= i < |items| =>
        if IsNullish(items[i]) then "" else ToJsString(items[i])), ",")
    case Obj(_) => "[object Object]"
    case Func(_) => "function"
  }

  /** An object whose key order is observable, as a list of entries. */
  type Entries<V> = seq<(string, V)>

  function Keys<V>(es: Entries<V>): (r: seq<string>)
    ensures |r| == |es|
    ensures forall i :: 0 <= i < |es| ==> r[i] == es[i].0
  {
    if es == [] then [] else [es[0].0] + Keys(es[1..])
  }

  predicate DistinctKeys<V>(es: Entries<V>) {
    forall i, j :: 0 <= i < j < |es| ==> es[i].0 != es[j].0
  }

  predicate HasKey<V>(es: Entries<V>, k: string) {
    exists i :: 0 <= i < |es| && es[i].0 == k
  }

  function Lookup<V>(es: Entries<V>, k: string): (r: Option<V>)
    ensures r.None? <==> !HasKey(es, k)
    ensures r.Some? ==> (k, r.value) in es
  {
    if es == [] then None
    else if es[0].0 == k then Some(es[0].1)
    else Lookup(es[1..], k)
  }

  /** `o[k] = v`: an existing key keeps its position, a new key goes last. */
  function Put<V>(es: Entries<V>, k: string, v: V): (r: Entries<V>)
    ensures HasKey(es, k) ==> |r| == |es| && Keys(r) == Keys(es)
    ensures !HasKey(es, k) ==> r == es + [(k, v)]
    ensures forall i :: 0 <= i < |r| && r[i].0 != k ==> r[i] in es
  {
    if es == [] then [(k, v)]
    else if es[0].0 == k then [(k, v)] + es[1..]
    else [es[0]] + Put(es[1..], k, v)
  }

  /** `delete o[k]` */
  function Remove<V>(es: Entries<V>, k: string): (r: Entries<V>)
    ensures !HasKey(r, k)
    ensures forall i :: 0 <= i < |r| ==> r[i] in es && r[i].0 != k
    ensures forall i :: 0 <= i < |es| && es[i].0 != k ==> es[i] in r
  {
    if es == [] then []
    else if es[0].0 == k then Remove(es[1..], k)
    else [es[0]] + Remove(es[1..], k)
  }

  /** `Object.assign({...base}, extra)`, i.e. `{...base, ...extra}`. */
  function Assign<V>(base: Entries<V>, extra: Entries<V>): (r: Entries<V>)
    decreases |extra|
  {
    if extra == [] then base
    else Assign(Put(base, extra[0].0, extra[0].1), extra[1..])
  }

  /** The dictionary an entry list denotes. */
  function ToMap<V>(es: Entries<V>): (m: map<string, V>)
    ensures m.Keys == set e | e in es :: e.0
  {
    if es == [] then map[] else ToMap(es[..|es| - 1])[es[|es| - 1].0 := es[|es| - 1].1]
  }

  /** Reading back after `o[k] = v`: `k` gives `v`, other keys are untouched. */
  lemma {:induction false} LookupPut<V>(es: Entries<V>, k: string, v: V, other: string)
    ensures Lookup(Put(es, k, v), k) == Some(v)
    ensures other != k ==> Lookup(Put(es, k, v), other) == Lookup(es, other)
  {
    if es != [] && es[0].0 != k {
      LookupPut(es[1..], k, v, other);
    }
  }

  /** After `delete o[k]`, `k` is gone and other keys are untouched. */
  lemma {:induction false} LookupRemove<V>(es: Entries<V>, k: string, other: string)
    ensures Lookup(Remove(es, k), k) == None
    ensures other != k ==> Lookup(Remove(es, k), other) == Lookup(es, other)
  {
    if es != [] {
      LookupRemove(es[1..], k, other);
    }
  }

  lemma HasKeyTail<V>(es: Entries<V>, k: string)
    requires es != []
    ensures HasKey(es, k) <==> es[0].0 == k || HasKey(es[1..], k)
  {
    if HasKey(es, k) && es[0].0 != k {
      var i :| 0 <= i < |es| && es[i].0 == k;
      assert es[1..][i - 1].0 == k;
    }
    if HasKey(es[1..], k) {
      var i :| 0 <= i < |es[1..]| && es[1..][i].0 == k;
      assert es[i + 1].0 == k;
    }
  }

  /** `{...base, ...extra}` reads a key from `extra` when it has it, from
      `base` otherwise. */
  lemma {:induction false} LookupAssign<V>(base: Entries<V>, extra: Entries<V>, k: string)
    requires DistinctKeys(extra)
    ensures Lookup(Assign(base, extra), k)
      == (if HasKey(extra, k) then Lookup(extra, k) else Lookup(base, k))
    decreases |extra|
  {
    if extra != [] {
      var rest := extra[1..];
      assert DistinctKeys(rest) by {
        forall i, j | 0 <= i < j < |rest| ensures rest[i].0 != rest[j].0 {
          assert rest[i] == extra[i + 1] && rest[j] == extra[j + 1];
        }
      }
      LookupAssign(Put(base, extra[0].0, extra[0].1), rest, k);
      LookupPut(base, extra[0].0, extra[0].1, k);
      HasKeyTail(extra, k);
      if extra[0].0 == k {
        assert !HasKey(rest, k) by {
          forall i | 0 <= i < |rest| ensures rest[i].0 != k {
            assert rest[i] == extra[i + 1];
          }
        }
      }
    }
  }

  /** Writing a key keeps the keys distinct. */
  lemma {:induction false} PutDistinct<V>(es: Entries<V>, k: string, v: V)
    requires DistinctKeys(es)
    ensures DistinctKeys(Put(es, k, v))
  {
    if es == [] {
    } else if es[0].0 == k {
      var r := Put(es, k, v);
      assert r == [(k, v)] + es[1..];
      assert forall i :: 0 <= i < |r| ==> r[i].0 == es[i].0;
    } else {
      PutDistinct(es[1..], k, v);
      PutTailKeys(es, k, v);
      ConsDistinct(es[0], Put(es[1..], k, v));
    }
  }

  /** Writing `k` into the tail adds no copy of the head's key. */
  lemma PutTailKeys<V>(es: Entries<V>, k: string, v: V)
    requires es != [] && es[0].0 != k && DistinctKeys(es)
    ensures forall j :: 0 <= j < |Put(es[1..], k, v)| ==> Put(es[1..], k, v)[j].0 != es[0].0
  {
    var r := Put(es[1..], k, v);
    forall j | 0 <= j < |r| ensures r[j].0 != es[0].0 {
      if r[j].0 != k {
        var i :| 0 <= i < |es[1..]| && es[1..][i] == r[j];
        assert es[i + 1] == r[j];
      }
    }
  }

  lemma ConsDistinct<V>(e: (string, V), r: Entries<V>)
    requires DistinctKeys(r)
    requires forall j :: 0 <= j < |r| ==> r[j].0 != e.0
    ensures DistinctKeys([e] + r)
  {
    var c := [e] + r;
    assert forall i :: 1 <= i < |c| ==> c[i] == r[i - 1];
  }

  /** Deleting a key keeps the keys distinct. */
  lemma {:induction false} RemoveDistinct<V>(es: Entries<V>, k: string)
    requires DistinctKeys(es)
    ensures DistinctKeys(Remove(es, k))
  {
    if es != [] {
      RemoveDistinct(es[1..], k);
      var r := Remove(es[1..], k);
      forall j | 0 <= j < |r| ensures r[j].0 != es[0].0 {
        var i :| 0 <= i < |es[1..]| && es[1..][i] == r[j];
        assert es[i + 1] == r[j];
      }
    }
  }

  /** A property every value has survives writing a value that has it. */
  lemma {:induction false} PutValues<V>(es: Entries<V>, k: string, v: V, p: V -> bool)
    requires forall i :: 0 <= i < |es| ==> p(es[i].1)
    requires p(v)
    ensures forall i :: 0 <= i < |Put(es, k, v)| ==> p(Put(es, k, v)[i].1)
  {
    if es != [] && es[0].0 != k {
      PutValues(es[1..], k, v, p);
      var r := Put(es[1..], k, v);
      assert Put(es, k, v) == [es[0]] + r;
    }
  }

  /** A property every value has survives deleting a key. */
  lemma {:induction false} RemoveValues<V>(es: Entries<V>, k: string, p: V -> bool)
    requires forall i :: 0 <= i < |es| ==> p(es[i].1)
    ensures forall i :: 0 <= i < |Remove(es, k)| ==> p(Remove(es, k)[i].1)
  {
    if es != [] {
      RemoveValues(es[1..], k, p);
      var r := Remove(es[1..], k);
      if es[0].0 != k {
        assert Remove(es, k) == [es[0]] + r;
      }
    }
  }

  /** After `o[k] = v` every entry is an old one or the new one. */
  lemma {:induction false} PutEntries<V>(es: Entries<V>, k: string, v: V)
    ensures forall i :: 0 <= i < |Put(es, k, v)| ==> Put(es, k, v)[i] in es || Put(es, k, v)[i] == (k, v)
  {
    if es != [] && es[0].0 != k {
      PutEntries(es[1..], k, v);
      var r := Put(es[1..], k, v);
      assert Put(es, k, v) == [es[0]] + r;
      forall i | 0 <= i < |r| ensures r[i] in es || r[i] == (k, v) {
        if r[i] in es[1..] {
          var j :| 0 <= j < |es[1..]| && es[1..][j] == r[i];
          assert es[j + 1] == r[i];
        }
      }
    }
  }
}
