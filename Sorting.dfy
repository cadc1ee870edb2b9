/** Sorting state: the `jtSorting` string, `parseDefaultSorting`, and the
    column cycle `sortByColumn` applies (unsorted, ASC, DESC, unsorted),
    with the rule that collapses the list to the clicked column. */
module Sorting {
  import opened Wrappers
  import opened Js
  import opened Fields
  import Strings

  datatype Direction = Asc | Desc

  /** One entry of `state.sorting`: `{fieldName, direction}`. */
  datatype SortEntry = SortEntry(fieldName: string, direction: Direction)

  function DirectionName(d: Direction): string {
    match d
    case Asc => "ASC"
    case Desc => "DESC"
  }

  /** `${sort.fieldName} ${sort.direction}` */
  function EntryText(e: SortEntry): string {
    e.fieldName + " " + DirectionName(e.direction)
  }

  function EntryTexts(es: seq<SortEntry>): (r: seq<string>)
    ensures |r| == |es|
    ensures forall i :: 0 <= i < |es| ==> r[i] == EntryText(es[i])
  {
    if es == [] then [] else [EntryText(es[0])] + EntryTexts(es[1..])
  }

  /** The `jtSorting` request value: entries joined with `", "`. */
  function SortingParam(es: seq<SortEntry>): string {
    Strings.Join(EntryTexts(es), ", ")
  }

  /** A field the table may sort on: defined, with `sorting !== false`. */
  predicate Sortable(fields: FieldList, name: string) {
    var f := Lookup(fields, name);
    f.Some? && f.value.sorting != Bool(false)
  }

  /** One trimmed, non-empty part of a default-sorting string: a field name
      optionally followed by ` ASC` or ` DESC` (matched case-insensitively;
      ` DESC` is looked for first). */
  function ParsePart(trimmed: string): SortEntry {
    var upper := Strings.UpperAscii(trimmed);
    var descIndex := Strings.IndexOf(upper, " DESC");
    var ascIndex := Strings.IndexOf(upper, " ASC");
    if descIndex > 0 then SortEntry(Strings.Trim(trimmed[..descIndex]), Desc)
    else if ascIndex > 0 then SortEntry(Strings.Trim(trimmed[..ascIndex]), Asc)
    else SortEntry(Strings.Trim(trimmed), Asc)
  }

  function ParseParts(parts: seq<string>, fields: FieldList): (r: seq<SortEntry>)
    ensures forall i :: 0 <= i < |r| ==> Sortable(fields, r[i].fieldName)
  {
    if parts == [] then []
    else
      var trimmed := Strings.Trim(parts[0]);
      if trimmed == "" then ParseParts(parts[1..], fields)
      else
        var e := ParsePart(trimmed);
        if Sortable(fields, e.fieldName) then [e] + ParseParts(parts[1..], fields)
        else ParseParts(parts[1..], fields)
  }

  /** `parseDefaultSorting(sortStr)`: only sortable fields survive. */
  function ParseDefaultSorting(sortStr: JsValue, fields: FieldList): (r: seq<SortEntry>)
    ensures forall i :: 0 <= i < |r| ==> Sortable(fields, r[i].fieldName)
  {
    if !Truthy(sortStr) || !sortStr.Str? then [] else ParseParts(Strings.Split(sortStr.s, ','), fields)
  }

  /** A name that survives being written into `jtSorting` and read back:
      non-empty, with no whitespace and no comma. */
  predicate PlainName(name: string) {
    name != "" && forall k :: 0 <= k < |name| ==> !Strings.IsWhitespace(name[k]) && name[k] != ','
  }

  lemma {:induction false} SplitWithout(a: string, c: char)
    requires c !in a
    ensures Strings.Split(a, c) == [a]
  {
    if a != [] {
      SplitWithout(a[1..], c);
      assert [a[0]] + a[1..] == a;
    }
  }

  lemma {:induction false} SplitAt(a: string, b: string, c: char)
    requires c !in a
    ensures Strings.Split(a + [c] + b, c) == [a] + Strings.Split(b, c)
  {
    if a == [] {
      assert a + [c] + b == [c] + b;
    } else {
      SplitAt(a[1..], b, c);
      assert (a + [c] + b)[1..] == a[1..] + [c] + b;
      assert (a + [c] + b)[0] == a[0];
      assert [a[0]] + a[1..] == a;
    }
  }

  lemma TrimStartPadded(pre: string, p: string)
    requires forall k :: 0 <= k < |pre| ==> Strings.IsWhitespace(pre[k])
    requires p != [] && !Strings.IsWhitespace(p[0])
    ensures Strings.TrimStart(pre + p) == p
  {
    var s := pre + p;
    var r := Strings.TrimStart(s);
    var cut := |s| - |r|;
    assert s[|pre|] == p[0];
    assert forall k :: 0 <= k < |pre| ==> s[k] == pre[k];
    assert r[0] == s[cut];
    assert s[|pre|..] == p;
  }

  lemma TrimPadded(pre: string, p: string)
    requires forall k :: 0 <= k < |pre| ==> Strings.IsWhitespace(pre[k])
    requires p != [] && !Strings.IsWhitespace(p[0]) && !Strings.IsWhitespace(p[|p| - 1])
    ensures Strings.Trim(pre + p) == p
  {
    TrimStartPadded(pre, p);
  }

  /** The text of an entry over a plain name reads back as that entry. */
  lemma ParsePartOfText(e: SortEntry)
    requires PlainName(e.fieldName)
    ensures ParsePart(EntryText(e)) == e
  {
    var t := EntryText(e);
    var n := |e.fieldName|;
    var upper := Strings.UpperAscii(t);
    UpperTextSpaces(e);
    UpperTextSuffix(e);
    IndexAtSpace(upper, " DESC", n);
    IndexAtSpace(upper, " ASC", n);
    assert t[..n] == e.fieldName;
    Strings.TrimOfTrimmed(e.fieldName);
  }

  /** In the upper-cased text of an entry the only space is the separator. */
  lemma UpperTextSpaces(e: SortEntry)
    requires PlainName(e.fieldName)
    ensures var upper := Strings.UpperAscii(EntryText(e));
      forall k :: 0 <= k < |upper| ==> (upper[k] == ' ' <==> k == |e.fieldName|)
  {
    var t := EntryText(e);
    var n := |e.fieldName|;
    forall k | 0 <= k < |t|
      ensures Strings.UpperAscii(t)[k] == ' ' <==> k == n
    {
      if k < n {
        assert t[k] == e.fieldName[k];
      } else if k > n {
        assert t[k] == DirectionName(e.direction)[k - n - 1];
      }
    }
  }

  /** The upper-cased text ends with the direction after the separator. */
  lemma UpperTextSuffix(e: SortEntry)
    ensures var upper := Strings.UpperAscii(EntryText(e));
      var n := |e.fieldName|;
      (e.direction == Desc <==> Strings.OccursAt(upper, " DESC", n))
      && (e.direction == Asc <==> Strings.OccursAt(upper, " ASC", n))
  {
    var n := |e.fieldName|;
    var d := " " + DirectionName(e.direction);
    var t := EntryText(e);
    assert t[n..] == d;
    if e.direction == Desc {
      UpperSuffix(t, n, " DESC");
      DescOccurs(Strings.UpperAscii(t), n);
    } else {
      UpperSuffix(t, n, " ASC");
      AscOccurs(Strings.UpperAscii(t), n);
    }
  }

  /** A suffix without lower-case letters is left as it is by upper-casing. */
  lemma UpperSuffix(t: string, n: nat, d: string)
    requires n <= |t| && t[n..] == d
    requires forall j :: 0 <= j < |d| ==> !('a' <= d[j] <= 'z')
    ensures Strings.UpperAscii(t)[n..] == d
  {
    var u := Strings.UpperAscii(t);
    forall j | 0 <= j < |d| ensures u[n..][j] == d[j] {
      assert u[n + j] == Strings.UpperChar(t[n + j]);
      assert t[n + j] == d[j];
    }
  }

  lemma DescOccurs(upper: string, n: nat)
    requires n <= |upper| && upper[n..] == " DESC"
    ensures Strings.OccursAt(upper, " DESC", n) && !Strings.OccursAt(upper, " ASC", n)
  {
    assert upper[n..n + 5] == upper[n..];
    assert upper[n..n + 4][1] == upper[n..][1] == 'D';
  }

  lemma AscOccurs(upper: string, n: nat)
    requires n <= |upper| && upper[n..] == " ASC"
    ensures Strings.OccursAt(upper, " ASC", n) && !Strings.OccursAt(upper, " DESC", n)
  {
    assert upper[n..n + 4] == upper[n..];
  }

  /** When the text holds a single space, at `n`, a pattern starting with a
      space is found at `n` or nowhere. */
  lemma IndexAtSpace(u: string, pat: string, n: int)
    requires pat != [] && pat[0] == ' '
    requires forall k :: 0 <= k < |u| ==> (u[k] == ' ' <==> k == n)
    ensures Strings.IndexOf(u, pat) == (if Strings.OccursAt(u, pat, n) then n else -1)
  {
    var d := Strings.IndexOf(u, pat);
    Strings.IndexOfFirst(u, pat);
    if d != -1 {
      assert u[d..d + |pat|][0] == u[d];
    }
  }

  lemma SortingParamCons(es: seq<SortEntry>)
    requires |es| >= 2
    ensures SortingParam(es) == EntryText(es[0]) + ", " + SortingParam(es[1..])
  {
    assert EntryTexts(es)[1..] == EntryTexts(es[1..]);
  }

  lemma EntryTextNoComma(pre: string, e: SortEntry)
    requires pre == "" || pre == " "
    requires PlainName(e.fieldName)
    ensures ',' !in pre + EntryText(e)
  {
    var x := pre + EntryText(e);
    forall k | 0 <= k < |x| ensures x[k] != ',' {
      if k >= |pre| + |e.fieldName| {
        assert x[k] in DirectionName(e.direction) + " ";
      } else if k >= |pre| {
        assert x[k] == e.fieldName[k - |pre|];
      }
    }
  }

  lemma EntryTextTrimmed(pre: string, e: SortEntry)
    requires pre == "" || pre == " "
    requires PlainName(e.fieldName)
    ensures Strings.Trim(pre + EntryText(e)) == EntryText(e)
  {
    var t := EntryText(e);
    assert t[0] == e.fieldName[0];
    assert t[|t| - 1] == 'C';
    TrimPadded(pre, t);
  }

  /** The first part of a serialized list parses to its first entry. */
  lemma ParseHead(pre: string, e: SortEntry, fields: FieldList)
    requires pre == "" || pre == " "
    requires PlainName(e.fieldName) && Sortable(fields, e.fieldName)
    ensures ',' !in pre + EntryText(e)
    ensures ParseParts([pre + EntryText(e)], fields) == [e]
  {
    EntryTextNoComma(pre, e);
    EntryTextTrimmed(pre, e);
    ParsePartOfText(e);
    ParseOne(pre + EntryText(e), e, fields);
  }

  /** A single part that trims to the text of a sortable entry parses to it. */
  lemma ParseOne(x: string, e: SortEntry, fields: FieldList)
    requires Strings.Trim(x) != "" && ParsePart(Strings.Trim(x)) == e && Sortable(fields, e.fieldName)
    ensures ParseParts([x], fields) == [e]
  {
    assert [x][0] == x;
    assert [x][1..] == [];
  }

  /** Every entry has a plain, sortable field name. */
  predicate Serializable(es: seq<SortEntry>, fields: FieldList) {
    es == [] || (PlainName(es[0].fieldName) && Sortable(fields, es[0].fieldName) && Serializable(es[1..], fields))
  }

  lemma {:induction false} SerializableAll(es: seq<SortEntry>, fields: FieldList)
    requires forall i :: 0 <= i < |es| ==> PlainName(es[i].fieldName) && Sortable(fields, es[i].fieldName)
    ensures Serializable(es, fields)
  {
    if es != [] {
      assert forall i :: 0 <= i < |es[1..]| ==> es[1..][i] == es[i + 1];
      SerializableAll(es[1..], fields);
    }
  }

  lemma SplitSerialized(pre: string, es: seq<SortEntry>)
    requires |es| >= 2
    requires ',' !in pre + EntryText(es[0])
    ensures Strings.Split(pre + SortingParam(es), ',')
         == [pre + EntryText(es[0])] + Strings.Split(" " + SortingParam(es[1..]), ',')
  {
    var t := EntryText(es[0]);
    var tail := SortingParam(es[1..]);
    SortingParamCons(es);
    assert pre + SortingParam(es) == (pre + t) + [','] + (" " + tail);
    SplitAt(pre + t, " " + tail, ',');
  }

  lemma {:induction false} ParseSerialized(pre: string, es: seq<SortEntry>, fields: FieldList)
    requires pre == "" || pre == " "
    requires es != [] && Serializable(es, fields)
    ensures ParseParts(Strings.Split(pre + SortingParam(es), ','), fields) == es
    decreases es
  {
    var t := EntryText(es[0]);
    if |es| == 1 {
      ParseHead(pre, es[0], fields);
      assert SortingParam(es) == t;
      SplitWithout(pre + t, ',');
    } else {
      var rest := es[1..];
      assert Serializable(rest, fields);
      ParseSerialized(" ", rest, fields);
      ParseHead(pre, es[0], fields);
      SplitSerialized(pre, es);
      var tail := Strings.Split(" " + SortingParam(rest), ',');
      ParseCons(pre + t, tail, fields);
    }
  }

  lemma ParseCons(p: string, ps: seq<string>, fields: FieldList)
    ensures ParseParts([p] + ps, fields) == ParseParts([p], fields) + ParseParts(ps, fields)
  {
    assert ([p] + ps)[1..] == ps;
    assert [p][1..] == [];
  }

  /** `parseDefaultSorting` reads a `jtSorting` string back into the
      sorting list it was built from, for sortable fields with plain names. */
  lemma SortingParamRoundTrip(es: seq<SortEntry>, fields: FieldList)
    requires forall i :: 0 <= i < |es| ==> PlainName(es[i].fieldName) && Sortable(fields, es[i].fieldName)
    ensures ParseDefaultSorting(Str(SortingParam(es)), fields) == es
  {
    if es != [] {
      SerializableAll(es, fields);
      ParseSerialized("", es, fields);
      assert "" + SortingParam(es) == SortingParam(es);
      SortingParamNonEmpty(es);
      ParseDefaultOfString(SortingParam(es), fields);
    }
  }

  lemma ParseDefaultOfString(x: string, fields: FieldList)
    requires x != ""
    ensures ParseDefaultSorting(Str(x), fields) == ParseParts(Strings.Split(x, ','), fields)
  {
  }

  lemma SortingParamNonEmpty(es: seq<SortEntry>)
    requires es != []
    ensures SortingParam(es) != ""
  {
    if |es| == 1 {
      assert SortingParam(es) == EntryText(es[0]);
    } else {
      SortingParamCons(es);
    }
  }

  /** `state.sorting.findIndex(s => s.fieldName === fieldName)` */
  function FindIndex(sorting: seq<SortEntry>, name: string): (i: int)
    ensures -1 <= i < |sorting|
    ensures i >= 0 ==> sorting[i].fieldName == name
    ensures forall k :: 0 <= k < |sorting| && (i == -1 || k < i) ==> sorting[k].fieldName != name
  {
    if sorting == [] then -1
    else if sorting[0].fieldName == name then 0
    else var i := FindIndex(sorting[1..], name); if i == -1 then -1 else i + 1
  }

  /** The column cycle on the sorting list: an unsorted column is appended
      as ASC, an ASC entry turns DESC in place, a DESC entry is removed.
      Also returns whether the column ends up sorted, and its direction. */
  function Cycle(sorting: seq<SortEntry>, name: string): (seq<SortEntry>, bool, Direction) {
    var i := FindIndex(sorting, name);
    if i < 0 then (sorting + [SortEntry(name, Asc)], true, Asc)
    else if sorting[i].direction == Asc then (sorting[i := SortEntry(name, Desc)], true, Desc)
    else (sorting[..i] + sorting[i + 1..], false, Asc)
  }

  /** When a click replaces the whole sorting list with the clicked column:
      without `multiSorting`, or when `multiSortingCtrlKey` requires a Ctrl
      or Meta key that is not pressed. */
  predicate Collapses(multiSorting: bool, multiSortingCtrlKey: bool, ctrlPressed: bool) {
    !multiSorting || (multiSortingCtrlKey && !ctrlPressed)
  }

  /** The sorting list after `sortByColumn(name)` on a sortable column. */
  function NextSorting(sorting: seq<SortEntry>, name: string,
                       multiSorting: bool, multiSortingCtrlKey: bool, ctrlPressed: bool): seq<SortEntry>
  {
    var (cycled, isSorted, direction) := Cycle(sorting, name);
    if Collapses(multiSorting, multiSortingCtrlKey, ctrlPressed) then
      (if isSorted then [SortEntry(name, direction)] else [])
    else cycled
  }

  /** Each field appears at most once. */
  predicate DistinctFields(sorting: seq<SortEntry>) {
    forall i, j :: 0 <= i < j < |sorting| ==> sorting[i].fieldName != sorting[j].fieldName
  }

  /** The entries for columns other than `name`, in order. */
  function Others(sorting: seq<SortEntry>, name: string): (r: seq<SortEntry>)
  {
    if sorting == [] then []
    else if sorting[0].fieldName == name then Others(sorting[1..], name)
    else [sorting[0]] + Others(sorting[1..], name)
  }

  lemma {:induction false} OthersAppend(a: seq<SortEntry>, b: seq<SortEntry>, name: string)
    ensures Others(a + b, name) == Others(a, name) + Others(b, name)
  {
    if a == [] {
      assert a + b == b;
    } else {
      var h, t := a[0], a[1..];
      OthersAppend(t, b, name);
      assert a == [h] + t;
      assert a + b == [h] + (t + b);
      OthersCons(h, t, name);
      OthersCons(h, t + b, name);
      var keep := if h.fieldName == name then [] else [h];
      assert keep + (Others(t, name) + Others(b, name)) == (keep + Others(t, name)) + Others(b, name);
    }
  }

  lemma OthersCons(h: SortEntry, t: seq<SortEntry>, name: string)
    ensures Others([h] + t, name) == (if h.fieldName == name then [] else [h]) + Others(t, name)
  {
    assert ([h] + t)[0] == h;
    assert ([h] + t)[1..] == t;
  }

  lemma FindIndexUpdate(s: seq<SortEntry>, i: int, e: SortEntry, name: string)
    requires 0 <= i < |s| && FindIndex(s, name) == i && e.fieldName == name
    ensures FindIndex(s[i := e], name) == i
  {
    var u := s[i := e];
    assert u[i].fieldName == name;
    assert forall k :: 0 <= k < i ==> u[k] == s[k];
  }

  /** The entries of other columns around position `i`. */
  lemma OthersAround(sorting: seq<SortEntry>, i: int, name: string)
    requires 0 <= i < |sorting| && sorting[i].fieldName == name
    ensures Others(sorting, name) == Others(sorting[..i], name) + Others(sorting[i + 1..], name)
  {
    assert sorting == sorting[..i] + [sorting[i]] + sorting[i + 1..];
    OthersAppend(sorting[..i] + [sorting[i]], sorting[i + 1..], name);
    OthersAppend(sorting[..i], [sorting[i]], name);
    assert Others([sorting[i]], name) == [];
  }

  lemma CycleAbsent(sorting: seq<SortEntry>, name: string)
    requires DistinctFields(sorting) && FindIndex(sorting, name) < 0
    ensures var cycled := sorting + [SortEntry(name, Asc)];
      DistinctFields(cycled)
      && FindIndex(cycled, name) == |sorting|
      && Others(cycled, name) == Others(sorting, name)
  {
    OthersAppend(sorting, [SortEntry(name, Asc)], name);
    assert Others([SortEntry(name, Asc)], name) == [];
    FindIndexAppend(sorting, SortEntry(name, Asc), name);
  }

  lemma CycleAsc(sorting: seq<SortEntry>, name: string, i: int)
    requires DistinctFields(sorting) && 0 <= i && FindIndex(sorting, name) == i
    ensures var cycled := sorting[i := SortEntry(name, Desc)];
      DistinctFields(cycled)
      && FindIndex(cycled, name) == i
      && Others(cycled, name) == Others(sorting, name)
  {
    var cycled := sorting[i := SortEntry(name, Desc)];
    OthersAround(sorting, i, name);
    OthersAround(cycled, i, name);
    assert cycled[..i] == sorting[..i] && cycled[i + 1..] == sorting[i + 1..];
    FindIndexUpdate(sorting, i, SortEntry(name, Desc), name);
  }

  lemma CycleDesc(sorting: seq<SortEntry>, name: string, i: int)
    requires DistinctFields(sorting) && 0 <= i && FindIndex(sorting, name) == i
    ensures var cycled := sorting[..i] + sorting[i + 1..];
      DistinctFields(cycled)
      && FindIndex(cycled, name) == -1
      && Others(cycled, name) == Others(sorting, name)
  {
    var cycled := sorting[..i] + sorting[i + 1..];
    OthersAround(sorting, i, name);
    OthersAppend(sorting[..i], sorting[i + 1..], name);
    assert forall k :: 0 <= k < |cycled| ==> cycled[k] == sorting[if k < i then k else k + 1];
  }

  /** The sorted state of the clicked column after the cycle, and the
      entries of the other columns, which the cycle leaves in place. */
  lemma CycleSpec(sorting: seq<SortEntry>, name: string)
    requires DistinctFields(sorting)
    ensures var (cycled, isSorted, direction) := Cycle(sorting, name);
      var i := FindIndex(sorting, name);
      DistinctFields(cycled)
      && (isSorted <==> (i < 0 || sorting[i].direction == Asc))
      && (isSorted <==> FindIndex(cycled, name) >= 0)
      && (isSorted ==> cycled[FindIndex(cycled, name)] == SortEntry(name, direction))
      && (isSorted ==> direction == (if i < 0 then Asc else Desc))
      && Others(cycled, name) == Others(sorting, name)
  {
    var i := FindIndex(sorting, name);
    if i < 0 {
      CycleAbsent(sorting, name);
    } else if sorting[i].direction == Asc {
      CycleAsc(sorting, name, i);
    } else {
      CycleDesc(sorting, name, i);
    }
  }

  /** A click keeps the list free of duplicate columns; after it the clicked
      column is present exactly when it ended up sorted, with the new
      direction (ASC for a column that was unsorted, DESC for one that was
      ASC). A collapsing click leaves at most that one entry; otherwise
      every other column keeps its entry and its place in the order. */
  lemma NextSortingSpec(sorting: seq<SortEntry>, name: string,
                        multiSorting: bool, multiSortingCtrlKey: bool, ctrlPressed: bool)
    requires DistinctFields(sorting)
    ensures var r := NextSorting(sorting, name, multiSorting, multiSortingCtrlKey, ctrlPressed);
      var i := FindIndex(sorting, name);
      var sortedNow := i < 0 || sorting[i].direction == Asc;
      DistinctFields(r)
      && (sortedNow <==> FindIndex(r, name) >= 0)
      && (sortedNow ==> r[FindIndex(r, name)] == SortEntry(name, if i < 0 then Asc else Desc))
      && (Collapses(multiSorting, multiSortingCtrlKey, ctrlPressed) ==> |r| <= 1)
      && (!Collapses(multiSorting, multiSortingCtrlKey, ctrlPressed) ==> Others(r, name) == Others(sorting, name))
  {
    CycleSpec(sorting, name);
  }

  lemma FindIndexAppend(s: seq<SortEntry>, e: SortEntry, name: string)
    requires FindIndex(s, name) == -1 && e.fieldName == name
    ensures FindIndex(s + [e], name) == |s|
  {
    var r := FindIndex(s + [e], name);
    assert (s + [e])[|s|].fieldName == name;
    assert forall k :: 0 <= k < |s| ==> (s + [e])[k] == s[k];
  }

  /** Without collapsing, three clicks on a column that was not sorted
      leave the list as it was: appended ASC, turned DESC, removed. */
  lemma ThreeClicksRestore(sorting: seq<SortEntry>, name: string)
    requires FindIndex(sorting, name) == -1
    ensures var once := NextSorting(sorting, name, true, false, false);
      var twice := NextSorting(once, name, true, false, false);
      NextSorting(twice, name, true, false, false) == sorting
      && once == sorting + [SortEntry(name, Asc)]
      && twice == sorting + [SortEntry(name, Desc)]
  {
    FindIndexAppend(sorting, SortEntry(name, Asc), name);
    var once := sorting + [SortEntry(name, Asc)];
    assert once[|sorting| := SortEntry(name, Desc)] == sorting + [SortEntry(name, Desc)];
    FindIndexAppend(sorting, SortEntry(name, Desc), name);
    var twice := sorting + [SortEntry(name, Desc)];
    assert twice[..|sorting|] + twice[|sorting| + 1..] == sorting;
  }

  /** Single sorting: clicking A twice gives `[A DESC]`, a third click
      gives `[]`, and clicking B after A leaves only `[B ASC]`. */
  lemma SingleSortClicks(a: string, b: string, multiSortingCtrlKey: bool, ctrlPressed: bool)
    requires a != b
    ensures var one := NextSorting([], a, false, multiSortingCtrlKey, ctrlPressed);
      var two := NextSorting(one, a, false, multiSortingCtrlKey, ctrlPressed);
      one == [SortEntry(a, Asc)]
      && two == [SortEntry(a, Desc)]
      && NextSorting(two, a, false, multiSortingCtrlKey, ctrlPressed) == []
      && NextSorting(one, b, false, multiSortingCtrlKey, ctrlPressed) == [SortEntry(b, Asc)]
  {
    assert FindIndex([SortEntry(a, Asc)], b) == -1;
  }
}
