/** Field definitions: the attributes the table reads from each entry of
    `options.fields`, the defaults `processFieldDefinitions` fills in, and
    `shouldIncludeField`, which decides whether a form shows a field. */
module Fields {
  import opened Wrappers
  import opened Js

  /** One field definition. Every attribute keeps its JavaScript value, so
      that `undefined`, `false`, `true` and other values stay distinct. */
  datatype Field = Field(
    options: JsValue,
    dependsOn: JsValue,
    key: JsValue,
    create: JsValue,
    edit: JsValue,
    list: JsValue,
    sorting: JsValue,
    visibility: JsValue,
    inputType: JsValue)

  /** `options.fields` in definition order. */
  type FieldList = Entries<Field>

  /** `v ?? d`: `v` unless it is nullish, so the result is nullish only when both are. */
  function Coalesce(v: JsValue, d: JsValue): (r: JsValue)
    ensures r == v || r == d
    ensures IsNullish(r) <==> IsNullish(v) && IsNullish(d)
    ensures IsNullish(v) ==> r == d
    ensures !IsNullish(v) ==> r == v
  {
    if IsNullish(v) then d else v
  }

  /** The defaults of `processFieldDefinitions` for one field. A key field
      whose `create` (or `edit`) is falsy gets `true` and becomes a hidden
      input; any other field gets `true` for unset `create`, `edit`, `list`
      and `sorting`. Every field gets `visibility: 'visible'` when unset. */
  function DefaultField(f: Field): (r: Field)
    ensures r.options == f.options && r.dependsOn == f.dependsOn && r.key == f.key
  {
    if f.key == Bool(true) then
      var f1 := if !Truthy(f.create) then f.(create := Bool(true), inputType := Str("hidden")) else f;
      var f2 := if !Truthy(f1.edit) then f1.(edit := Bool(true), inputType := Str("hidden")) else f1;
      f2.(visibility := Coalesce(f2.visibility, Str("visible")))
    else
      f.(create := Coalesce(f.create, Bool(true)),
         edit := Coalesce(f.edit, Bool(true)),
         list := Coalesce(f.list, Bool(true)),
         sorting := Coalesce(f.sorting, Bool(true)),
         visibility := Coalesce(f.visibility, Str("visible")))
  }

  /** `shouldIncludeField(field, formType)` */
  predicate ShouldIncludeField(f: Field, formType: string) {
    if formType == "create" then
      f.create != Bool(false) && !(f.key == Bool(true) && f.create != Bool(true))
    else if formType == "edit" then
      f.edit != Bool(false)
    else
      true
  }

  /** Defaulting settles every attribute it touches: applying it twice
      changes nothing more. */
  lemma DefaultFieldIdempotent(f: Field)
    ensures DefaultField(DefaultField(f)) == DefaultField(f)
  {
  }

  /** After defaulting, a key field whose `create` or `edit` flag was unset
      (or falsy) appears in that form as a hidden input, and a key field
      always appears in the edit form. A non-key field is left out of a
      form only when that form's flag is explicitly `false`. */
  lemma DefaultedFieldInclusion(f: Field)
    ensures f.key == Bool(true) && !Truthy(f.create) ==>
      ShouldIncludeField(DefaultField(f), "create") && DefaultField(f).inputType == Str("hidden")
    ensures f.key == Bool(true) && !Truthy(f.edit) ==> DefaultField(f).inputType == Str("hidden")
    ensures f.key == Bool(true) ==> ShouldIncludeField(DefaultField(f), "edit")
    ensures f.key != Bool(true) ==>
      (ShouldIncludeField(DefaultField(f), "create") <==> f.create != Bool(false))
      && (ShouldIncludeField(DefaultField(f), "edit") <==> f.edit != Bool(false))
    ensures !IsNullish(DefaultField(f).visibility)
  {
  }

  function DefaultAll(fs: FieldList): (r: FieldList)
    ensures |r| == |fs|
    ensures forall i :: 0 <= i < |fs| ==> r[i] == (fs[i].0, DefaultField(fs[i].1))
  {
    if fs == [] then [] else [(fs[0].0, DefaultField(fs[0].1))] + DefaultAll(fs[1..])
  }

  /** `fieldList.filter(name => fields[name].list !== false)` */
  function ColumnList(fs: FieldList): (r: seq<string>)
  {
    if fs == [] then []
    else if fs[0].1.list != Bool(false) then [fs[0].0] + ColumnList(fs[1..])
    else ColumnList(fs[1..])
  }

  /** `fieldList.find(name => fields[name].key === true)` */
  function KeyField(fs: FieldList): (r: Option<string>)
  {
    if fs == [] then None
    else if fs[0].1.key == Bool(true) then Some(fs[0].0)
    else KeyField(fs[1..])
  }

  /** `processFieldDefinitions`: the defaulted fields, the column list and the key field. */
  function ProcessFieldDefinitions(fs: FieldList): (FieldList, seq<string>, Option<string>) {
    var defaulted := DefaultAll(fs);
    (defaulted, ColumnList(defaulted), KeyField(defaulted))
  }

  /** The column list holds, in definition order, exactly the fields whose
      defaulted `list` is not `false`; the key field is the first field
      whose `key` is `true`. */
  lemma {:induction false} ProcessFieldDefinitionsSpec(fs: FieldList)
    ensures var (d, cols, key) := ProcessFieldDefinitions(fs);
      (forall n :: n in cols <==> exists i :: 0 <= i < |d| && d[i].0 == n && d[i].1.list != Bool(false))
      && (forall a, b :: 0 <= a < b < |cols| ==> KeptBefore(d, cols[a], cols[b]))
      && (key.None? <==> forall i :: 0 <= i < |fs| ==> fs[i].1.key != Bool(true))
      && (key.Some? ==> exists i :: 0 <= i < |fs| && fs[i].0 == key.value && fs[i].1.key == Bool(true)
                          && forall j :: 0 <= j < i ==> fs[j].1.key != Bool(true))
  {
    var d := DefaultAll(fs);
    ColumnListMembers(d);
    ColumnListOrder(d);
    KeyFieldFirst(d);
  }

  lemma {:induction false} ColumnListMembers(fs: FieldList)
    ensures forall n :: n in ColumnList(fs) <==> exists i :: 0 <= i < |fs| && fs[i].0 == n && fs[i].1.list != Bool(false)
  {
    if fs != [] {
      ColumnListMembers(fs[1..]);
      assert forall i :: 1 <= i < |fs| ==> fs[i] == fs[1..][i - 1];
    }
  }

  /** Fields `x` and `y` both appear as columns, `x` defined before `y`. */
  ghost predicate KeptBefore(fs: FieldList, x: string, y: string) {
    exists i, j :: 0 <= i < j < |fs| && fs[i].0 == x && fs[j].0 == y
                   && fs[i].1.list != Bool(false) && fs[j].1.list != Bool(false)
  }

  /** The column list keeps definition order: of two columns, the earlier
      one comes from an earlier field. */
  lemma {:induction false} ColumnListOrder(fs: FieldList)
    ensures forall a, b :: 0 <= a < b < |ColumnList(fs)| ==> KeptBefore(fs, ColumnList(fs)[a], ColumnList(fs)[b])
  {
    if fs != [] {
      var cols, rest := ColumnList(fs), ColumnList(fs[1..]);
      ColumnListOrder(fs[1..]);
      ColumnListMembers(fs[1..]);
      forall a, b | 0 <= a < b < |cols| ensures KeptBefore(fs, cols[a], cols[b]) {
        if fs[0].1.list != Bool(false) {
          assert cols == [fs[0].0] + rest;
          if a == 0 {
            assert rest[b - 1] in rest;
            HeadKeptBefore(fs, rest[b - 1]);
          } else {
            KeptBeforeTail(fs, rest[a - 1], rest[b - 1]);
          }
        } else {
          assert cols == rest;
          KeptBeforeTail(fs, rest[a], rest[b]);
        }
      }
    } else {
      assert ColumnList(fs) == [];
    }
  }

  lemma HeadKeptBefore(fs: FieldList, y: string)
    requires fs != [] && fs[0].1.list != Bool(false)
    requires exists j :: 0 <= j < |fs[1..]| && fs[1..][j].0 == y && fs[1..][j].1.list != Bool(false)
    ensures KeptBefore(fs, fs[0].0, y)
  {
    var j :| 0 <= j < |fs[1..]| && fs[1..][j].0 == y && fs[1..][j].1.list != Bool(false);
    assert fs[j + 1] == fs[1..][j];
  }

  lemma KeptBeforeTail(fs: FieldList, x: string, y: string)
    requires fs != [] && KeptBefore(fs[1..], x, y)
    ensures KeptBefore(fs, x, y)
  {
    var i, j :| 0 <= i < j < |fs[1..]| && fs[1..][i].0 == x && fs[1..][j].0 == y
                && fs[1..][i].1.list != Bool(false) && fs[1..][j].1.list != Bool(false);
    assert fs[i + 1] == fs[1..][i] && fs[j + 1] == fs[1..][j];
  }

  lemma {:induction false} KeyFieldFirst(fs: FieldList)
    ensures KeyField(fs).None? <==> forall i :: 0 <= i < |fs| ==> fs[i].1.key != Bool(true)
    ensures KeyField(fs).Some? ==>
      exists i :: 0 <= i < |fs| && fs[i].0 == KeyField(fs).value && fs[i].1.key == Bool(true)
                  && forall j :: 0 <= j < i ==> fs[j].1.key != Bool(true)
  {
    if fs != [] && fs[0].1.key != Bool(true) {
      KeyFieldFirst(fs[1..]);
      if KeyField(fs).Some? {
        var i :| 0 <= i < |fs[1..]| && fs[1..][i].0 == KeyField(fs).value
          && fs[1..][i].1.key == Bool(true) && forall j :: 0 <= j < i ==> fs[1..][j].1.key != Bool(true);
        assert fs[i + 1] == fs[1..][i];
        forall j | 0 <= j < i + 1 ensures fs[j].1.key != Bool(true) {
          if j > 0 { assert fs[j] == fs[1..][j - 1]; }
        }
      } else {
        forall i | 0 <= i < |fs| ensures fs[i].1.key != Bool(true) {
          if i > 0 { assert fs[i] == fs[1..][i - 1]; }
        }
      }
    }
  }
}
