/** `getFormData`: a form's (name, value) entries folded into one object,
    with `name[]` entries collected into a list and a repeated plain name
    turned into a list of its values. */
module FormData {
  import opened Wrappers
  import opened Js

  /** A property of the collected object: one value, or a list of them. */
  datatype FormValue = Text(s: string) | List(items: seq<string>)

  /** The collected object, or the `TypeError` JavaScript raises when a
      `name[]` entry meets a non-empty plain value of the same name. */
  datatype FormResult = Collected(data: Entries<FormValue>) | TypeError

  predicate IsListKey(key: string) {
    |key| >= 2 && key[|key| - 2..] == "[]"
  }

  /** `key.slice(0, -2)` */
  function BaseKey(key: string): (r: string)
    requires IsListKey(key)
    ensures r + "[]" == key
  {
    key[..|key| - 2]
  }

  /** Only one name has `key` as its list key. */
  lemma ListKeyOf(b: string, key: string)
    ensures b + "[]" == key ==> IsListKey(key) && b == BaseKey(key)
  {
    if b + "[]" == key {
      assert (b + "[]")[..|b|] == b;
    }
  }

  /** `!data[key]`: the key is absent or holds the empty string. */
  predicate IsFalsy(v: Option<FormValue>) {
    v.None? || v.value == Text("")
  }

  /** One turn of the loop over `formData.entries()`. */
  function AddEntry(data: Entries<FormValue>, key: string, value: string): FormResult {
    if IsListKey(key) then
      var base := BaseKey(key);
      var current := Lookup(data, base);
      if IsFalsy(current) then Collected(Put(data, base, List([value])))
      else if current.value.List? then Collected(Put(data, base, List(current.value.items + [value])))
      else TypeError
    else
      var current := Lookup(data, key);
      if current.None? then Collected(Put(data, key, Text(value)))
      else if current.value.List? then Collected(Put(data, key, List(current.value.items + [value])))
      else Collected(Put(data, key, List([current.value.s, value])))
  }

  /** The object the loop builds from `entries`, in order. */
  function Collect(entries: seq<(string, string)>): FormResult {
    if entries == [] then Collected([])
    else
      var last := entries[|entries| - 1];
      match Collect(entries[..|entries| - 1])
      case TypeError => TypeError
      case Collected(data) => AddEntry(data, last.0, last.1)
  }

  lemma CollectStep(entries: seq<(string, string)>, i: int)
    requires 0 <= i < |entries|
    ensures Collect(entries[..i + 1])
      == (if Collect(entries[..i]).TypeError? then TypeError
          else AddEntry(Collect(entries[..i]).data, entries[i].0, entries[i].1))
  {
    assert entries[..i + 1][..i] == entries[..i];
  }

  /** Once the loop throws, no later entry is looked at. */
  lemma {:induction false} ThrowIsFinal(entries: seq<(string, string)>, i: int)
    requires 0 <= i <= |entries| && Collect(entries[..i]) == TypeError
    ensures Collect(entries) == TypeError
    decreases |entries| - i
  {
    if i < |entries| {
      CollectStep(entries, i);
      ThrowIsFinal(entries, i + 1);
    } else {
      assert entries[..i] == entries;
    }
  }

  /** `getFormData(form)` over the form's entries. */
  method GetFormData(entries: seq<(string, string)>) returns (r: FormResult)
    ensures r == Collect(entries)
  {
    var data: Entries<FormValue> := [];
    var i := 0;
    while i < |entries|
      invariant 0 <= i <= |entries|
      invariant Collect(entries[..i]) == Collected(data)
    {
      var key := entries[i].0;
      var value := entries[i].1;
      CollectStep(entries, i);
      if IsListKey(key) {
        var base := key[..|key| - 2];
        var current := Lookup(data, base);
        if current.None? || current.value == Text("") {
          data := Put(data, base, List([value]));
        } else if current.value.List? {
          data := Put(data, base, List(current.value.items + [value]));
        } else {
          ThrowIsFinal(entries, i + 1);
          return TypeError;
        }
      } else {
        var current := Lookup(data, key);
        if current.None? {
          data := Put(data, key, Text(value));
        } else if current.value.List? {
          data := Put(data, key, List(current.value.items + [value]));
        } else {
          data := Put(data, key, List([current.value.s, value]));
        }
      }
      i := i + 1;
    }
    assert entries[..i] == entries;
    return Collected(data);
  }

  /** The values given under `key`, in order. */
  function ValuesOf(entries: seq<(string, string)>, key: string): (r: seq<string>)
    ensures |r| <= |entries|
  {
    if entries == [] then []
    else
      var last := entries[|entries| - 1];
      ValuesOf(entries[..|entries| - 1], key) + (if last.0 == key then [last.1] else [])
  }

  /** What a plain name ends up holding: nothing, its one value, or the
      list of all its values. */
  function Collapsed(values: seq<string>): Option<FormValue> {
    if values == [] then None
    else if |values| == 1 then Some(Text(values[0]))
    else Some(List(values))
  }

  /** Without `name[]` entries the fold never fails, and each name holds its
      single value or, when repeated, the list of all its values in order. */
  lemma {:induction false} PlainNamesCollapse(entries: seq<(string, string)>)
    requires forall i :: 0 <= i < |entries| ==> !IsListKey(entries[i].0)
    ensures Collect(entries).Collected?
    ensures forall k :: Lookup(Collect(entries).data, k) == Collapsed(ValuesOf(entries, k))
  {
    if entries != [] {
      var prefix := entries[..|entries| - 1];
      var last := entries[|entries| - 1];
      assert forall i :: 0 <= i < |prefix| ==> prefix[i] == entries[i];
      PlainNamesCollapse(prefix);
      var data := Collect(prefix).data;
      var vs := ValuesOf(prefix, last.0);
      var current := Lookup(data, last.0);
      assert current == Collapsed(vs);
      var stored := Collapsed(vs + [last.1]).value;
      if vs == [] {
      } else if |vs| == 1 {
        assert vs + [last.1] == [vs[0], last.1];
      } else {
      }
      assert AddEntry(data, last.0, last.1) == Collected(Put(data, last.0, stored));
      assert Collect(entries) == Collected(Put(data, last.0, stored));
      forall k ensures Lookup(Put(data, last.0, stored), k) == Collapsed(ValuesOf(entries, k)) {
        LookupPut(data, last.0, stored, k);
        assert ValuesOf(entries, k) == ValuesOf(prefix, k) + (if last.0 == k then [last.1] else []);
        if k != last.0 {
          assert ValuesOf(entries, k) == ValuesOf(prefix, k);
        }
      }
    }
  }

  /** What a `name[]` list ends up holding: nothing, or all its values. */
  function Gathered(values: seq<string>): Option<FormValue> {
    if values == [] then None else Some(List(values))
  }

  /** With only `name[]` entries the fold never fails, and each base name
      holds the list of all values given under `name[]`, in order. */
  lemma {:induction false} ListNamesCollect(entries: seq<(string, string)>)
    requires forall i :: 0 <= i < |entries| ==> IsListKey(entries[i].0)
    ensures Collect(entries).Collected?
    ensures forall b :: Lookup(Collect(entries).data, b) == Gathered(ValuesOf(entries, b + "[]"))
  {
    if entries != [] {
      var prefix := entries[..|entries| - 1];
      var last := entries[|entries| - 1];
      assert forall i :: 0 <= i < |prefix| ==> prefix[i] == entries[i];
      ListNamesCollect(prefix);
      var data := Collect(prefix).data;
      var base := BaseKey(last.0);
      var vs := ValuesOf(prefix, base + "[]");
      var current := Lookup(data, base);
      assert current == Gathered(vs);
      var stored := List(vs + [last.1]);
      assert IsListKey(last.0);
      if vs == [] {
        assert vs + [last.1] == [last.1];
        assert IsFalsy(current);
      } else {
        assert !IsFalsy(current) && current.value.List?;
      }
      assert AddEntry(data, last.0, last.1) == Collected(Put(data, base, stored));
      assert Collect(entries) == Collected(Put(data, base, stored));
      forall b ensures Lookup(Put(data, base, stored), b) == Gathered(ValuesOf(entries, b + "[]")) {
        LookupPut(data, base, stored, b);
        assert ValuesOf(entries, b + "[]") == ValuesOf(prefix, b + "[]") + (if last.0 == b + "[]" then [last.1] else []);
        if b == base {
          assert b + "[]" == last.0;
        } else {
          ListKeyOf(b, last.0);
          assert ValuesOf(entries, b + "[]") == ValuesOf(prefix, b + "[]");
        }
      }
    }
  }

  /** A `name[]` entry after a non-empty plain `name` makes the loop throw;
      after an empty one it starts a fresh list. */
  lemma ListAfterPlain(name: string, first: string, second: string)
    requires !IsListKey(name)
    ensures Collect([(name, first), (name + "[]", second)])
      == (if first == "" then Collected([(name, List([second]))]) else TypeError)
  {
    var entries := [(name, first), (name + "[]", second)];
    assert entries[..1] == [(name, first)];
    assert [(name, first)][..0] == [];
    var data := [(name, Text(first))];
    assert Collect([(name, first)]) == Collected(data);
    assert IsListKey(name + "[]") && BaseKey(name + "[]") == name;
    assert Lookup(data, name) == Some(Text(first));
  }
}
