/** The response cache shared by option lookups and list loads: a
    string-keyed map whose key is the URL followed by the request
    parameters sorted by name. */
module Cache {
  import opened Wrappers
  import opened Js
  import Strings

  /** Request parameters: an object whose values are JavaScript values. */
  type Params = Entries<JsValue>

  /** Strictly increasing by parameter name. */
  predicate SortedByKey(ps: Params) {
    forall i, j :: 0 <= i < j < |ps| ==> Strings.Less(ps[i].0, ps[j].0)
  }

  /** Insert one entry in front of the first entry whose name is not smaller. */
  function Insert(e: (string, JsValue), ps: Params): (r: Params)
    ensures multiset(r) == multiset(ps) + multiset{e}
  {
    if ps == [] then [e]
    else if !Strings.Less(ps[0].0, e.0) then
      assert ps == [ps[0]] + ps[1..];
      [e] + ps
    else
      assert ps == [ps[0]] + ps[1..];
      [ps[0]] + Insert(e, ps[1..])
  }

  /** Inserting a new name into a sorted list keeps it sorted. */
  lemma {:induction false} InsertSorted(e: (string, JsValue), ps: Params)
    requires SortedByKey(ps)
    requires forall i :: 0 <= i < |ps| ==> ps[i].0 != e.0
    ensures SortedByKey(Insert(e, ps))
  {
    if ps == [] {
    } else if !Strings.Less(ps[0].0, e.0) {
      Strings.LessTotal(e.0, ps[0].0);
      forall j | 0 <= j < |ps| ensures Strings.Less(e.0, ps[j].0) {
        if j > 0 { Strings.LessTransitive(e.0, ps[0].0, ps[j].0); }
      }
    } else {
      var rest := Insert(e, ps[1..]);
      InsertSorted(e, ps[1..]);
      assert ps == [ps[0]] + ps[1..];
      forall x: (string, JsValue) | x in multiset(rest) ensures Strings.Less(ps[0].0, x.0) {
        assert x in multiset(ps[1..]) + multiset{e};
        if x != e {
          assert x in ps[1..];
          var j :| 0 <= j < |ps[1..]| && ps[1..][j] == x;
          assert ps[j + 1] == x;
        }
      }
      forall j | 0 <= j < |rest| ensures Strings.Less(ps[0].0, rest[j].0) {
        assert rest[j] in multiset(rest);
      }
    }
  }

  /** `Object.keys(params).sort()`, carrying each value with its name. */
  function SortByKey(ps: Params): (r: Params)
    ensures multiset(r) == multiset(ps)
  {
    if ps == [] then []
    else
      assert ps == [ps[0]] + ps[1..];
      Insert(ps[0], SortByKey(ps[1..]))
  }

  /** With distinct names the sorted list is strictly increasing. */
  lemma {:induction false} SortByKeySorted(ps: Params)
    requires DistinctKeys(ps)
    ensures SortedByKey(SortByKey(ps))
  {
    if ps != [] {
      var rest := SortByKey(ps[1..]);
      assert DistinctKeys(ps[1..]);
      SortByKeySorted(ps[1..]);
      forall i | 0 <= i < |rest| ensures rest[i].0 != ps[0].0 {
        assert rest[i] in multiset(ps[1..]);
        var j :| 0 <= j < |ps[1..]| && ps[1..][j] == rest[i];
        assert ps[j + 1] == rest[i];
      }
      InsertSorted(ps[0], rest);
    }
  }

  /** `${key}=${params[key]}` for each entry. */
  function Pairs(ps: Params): (r: seq<string>)
    ensures |r| == |ps|
    ensures forall i :: 0 <= i < |ps| ==> r[i] == ps[i].0 + "=" + ToJsString(ps[i].1)
  {
    if ps == [] then [] else [ps[0].0 + "=" + ToJsString(ps[0].1)] + Pairs(ps[1..])
  }

  /** `generateKey(url, params)`: `url?k1=v1&k2=v2` with names in sorted order. */
  function GenerateKey(url: string, params: Params): string {
    url + "?" + Strings.Join(Pairs(SortByKey(params)), "&")
  }

  /** Two strictly sorted lists with the same elements are the same list. */
  lemma {:induction false} SortedUnique(a: Params, b: Params)
    requires SortedByKey(a) && SortedByKey(b)
    requires forall e :: e in a <==> e in b
    ensures a == b
  {
    if a != [] && b != [] {
      assert a[0] == b[0] by {
        assert a[0] in b && b[0] in a;
        var i :| 0 <= i < |b| && b[i] == a[0];
        var j :| 0 <= j < |a| && a[j] == b[0];
        assert i == 0 || Strings.Less(b[0].0, b[i].0);
        assert j == 0 || Strings.Less(a[0].0, a[j].0);
        Strings.LessNotBoth(a[0].0, b[0].0);
      }
      forall e ensures e in a[1..] <==> e in b[1..] {
        if e in a[1..] {
          var i :| 0 <= i < |a[1..]| && a[1..][i] == e;
          assert Strings.Less(a[0].0, a[i + 1].0);
          Strings.LessIrreflexive(a[0].0);
          assert e in b;
        }
        if e in b[1..] {
          var i :| 0 <= i < |b[1..]| && b[1..][i] == e;
          assert Strings.Less(b[0].0, b[i + 1].0);
          Strings.LessIrreflexive(b[0].0);
          assert e in a;
        }
      }
      SortedUnique(a[1..], b[1..]);
      assert a == [a[0]] + a[1..] && b == [b[0]] + b[1..];
    } else if a != [] {
      HeadIn(a);
      assert false;
    } else if b != [] {
      HeadIn(b);
      assert false;
    }
  }

  lemma HeadIn(s: Params)
    ensures s != [] ==> s[0] in s
  {
  }

  /** With distinct names, an entry is in the list exactly when the
      dictionary it denotes maps that name to that value. */
  lemma {:induction false} EntriesOfMap(ps: Params, e: (string, JsValue))
    requires DistinctKeys(ps)
    ensures e in ps <==> e.0 in ToMap(ps) && ToMap(ps)[e.0] == e.1
  {
    if ps != [] {
      var init := ps[..|ps| - 1];
      var last := ps[|ps| - 1];
      assert DistinctKeys(init);
      EntriesOfMap(init, e);
      assert ps == init + [last];
      assert forall i :: 0 <= i < |init| ==> init[i].0 != last.0;
    }
  }

  /** Cache key generation does not depend on the order in which the
      parameters were added: equal parameter maps give equal keys. */
  lemma GenerateKeyOrderIndependent(url: string, p: Params, q: Params)
    requires DistinctKeys(p) && DistinctKeys(q)
    requires ToMap(p) == ToMap(q)
    ensures GenerateKey(url, p) == GenerateKey(url, q)
  {
    var sp, sq := SortByKey(p), SortByKey(q);
    SortByKeySorted(p);
    SortByKeySorted(q);
    forall e ensures e in sp <==> e in sq {
      EntriesOfMap(p, e);
      EntriesOfMap(q, e);
      assert e in sp <==> e in multiset(p);
      assert e in sq <==> e in multiset(q);
    }
    SortedUnique(sp, sq);
  }

  /** Every key generated for `url` starts with the part of `url` before
      its first `?`, so clearing by URL reaches all of them. */
  lemma KeyStartsWithUrlPrefix(url: string, params: Params)
    ensures Strings.StartsWith(GenerateKey(url, params), Strings.BeforeFirst(url, '?'))
  {
    var pre := Strings.BeforeFirst(url, '?');
    assert GenerateKey(url, params)[..|pre|] == url[..|pre|];
  }

  /** `FTableOptionsCache`: the JavaScript `Map` is the field `entries`. */
  class OptionsCache {
    var entries: map<string, JsValue>

    constructor ()
      ensures entries == map[]
    {
      entries := map[];
    }

    /** `get(url, params)`: the stored value, or `undefined`. */
    function Get(url: string, params: Params): (r: JsValue)
      reads this
      ensures GenerateKey(url, params) in entries ==> r == entries[GenerateKey(url, params)]
      ensures GenerateKey(url, params) !in entries ==> r == Undefined
    {
      var key := GenerateKey(url, params);
      if key in entries then entries[key] else Undefined
    }

    /** `set(url, params, data)` */
    method Set(url: string, params: Params, data: JsValue)
      modifies this
      ensures entries == old(entries)[GenerateKey(url, params) := data]
      ensures Get(url, params) == data
    {
      var key := GenerateKey(url, params);
      entries := entries[key := data];
    }

    /** `clear(url, params)`. A falsy `url` (`null`, `undefined`, `""`) is
        `""` here and `params === null` is `None`. With both given, exactly
        the generated key goes; with `url` alone, every key starting with
        the part of `url` before `?` goes (a raw prefix match); with no
        `url`, everything goes. Nothing else changes. */
    method Clear(url: string, params: Option<Params>)
      modifies this
      ensures url == "" ==> entries == map[]
      ensures url != "" && params.Some? ==>
        entries == old(entries) - {GenerateKey(url, params.value)}
      ensures url != "" && params.None? ==>
        (forall k :: k in entries <==>
          k in old(entries) && !Strings.StartsWith(k, Strings.BeforeFirst(url, '?')))
        && (forall k :: k in entries ==> entries[k] == old(entries)[k])
    {
      if url != "" {
        if params.Some? {
          var key := GenerateKey(url, params.value);
          entries := entries - {key};
        } else {
          var prefix := Strings.BeforeFirst(url, '?');
          var pending := entries.Keys;
          while pending != {}
            invariant pending <= old(entries).Keys
            invariant forall k :: k in entries <==>
              k in old(entries) && (k in pending || !Strings.StartsWith(k, prefix))
            invariant forall k :: k in entries ==> entries[k] == old(entries)[k]
            decreases pending
          {
            var k :| k in pending;
            if Strings.StartsWith(k, prefix) {
              entries := entries - {k};
            }
            pending := pending - {k};
          }
        }
      } else {
        entries := map[];
      }
    }

    /** `size()` */
    function Size(): nat
      reads this
    {
      |entries|
    }
  }
}
