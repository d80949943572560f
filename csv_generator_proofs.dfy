/**
 * What a generation run promises: ids are handed out once each and in
 * increasing order, a row's id is smaller than those of the rows it fans
 * out, files only grow between truncations, each table's pass leaves its
 * file holding its header and only rows of that pass, and nested rows go
 * to the first table bearing the column's name.
 */
module CsvGeneratorProofs {
  import opened Common
  import opened Ast
  import opened CsvFields
  import opened CsvGenerator

  // ---------------------------------------------------------------------
  // Id allocation
  // ---------------------------------------------------------------------

  /** Between `st` and `r`, the ids handed out are st.nextId, ..., r.nextId - 1, each starting one row, in order. */
  ghost predicate StartsRowsInOrder(st: Output, r: Output) {
    st.nextId <= r.nextId && r.rowIds == st.rowIds + Range(st.nextId, r.nextId)
  }

  lemma StartsRowsNone(st: Output)
    ensures StartsRowsInOrder(st, st)
  {
    assert Range(st.nextId, st.nextId) == [];
  }

  lemma StartsRowsTrans(a: Output, b: Output, c: Output)
    requires StartsRowsInOrder(a, b) && StartsRowsInOrder(b, c)
    ensures StartsRowsInOrder(a, c)
  {
    RangeConcat(a.nextId, b.nextId, c.nextId);
  }

  /** Allocating an id and then processing an object with it starts rows in order. */
  lemma AllocatedObjectIds(obj: Value, t: Table, tables: seq<Table>, st: Output)
    requires obj.Object?
    ensures StartsRowsInOrder(st, EmitObject(obj, t, st.nextId, tables, Allocate(st)))
    decreases obj, 3, 0
  {
    var r := EmitObject(obj, t, st.nextId, tables, Allocate(st));
    ObjectIds(obj, t, st.nextId, tables, Allocate(st));
    RangeCons(st.nextId, r.nextId);
  }

  /** A row of an object uses the given id, and everything it fans out uses the next ids in turn. */
  lemma {:induction false} ObjectIds(obj: Value, t: Table, id: int, tables: seq<Table>, st: Output)
    requires obj.Object?
    ensures var r := EmitObject(obj, t, id, tables, st);
      st.nextId <= r.nextId && r.rowIds == st.rowIds + [id] + Range(st.nextId, r.nextId)
    decreases obj, 2, 0
  {
    FieldsIds(obj, t, 1, tables, st.(rowIds := st.rowIds + [id]));
  }

  lemma {:induction false} FieldsIds(obj: Value, t: Table, i: nat, tables: seq<Table>, st: Output)
    ensures StartsRowsInOrder(st, EmitFields(obj, t, i, tables, st))
    decreases obj, 1, |t.columns| - i
  {
    if i >= |t.columns| {
      StartsRowsNone(st);
    } else {
      var s1 := EmitField(obj, t.columns[i], tables, st);
      FieldIds(obj, t.columns[i], tables, st);
      FieldsIds(obj, t, i + 1, tables, s1);
      StartsRowsTrans(st, s1, EmitFields(obj, t, i + 1, tables, s1));
    }
  }

  lemma {:induction false} FieldIds(obj: Value, column: string, tables: seq<Table>, st: Output)
    ensures StartsRowsInOrder(st, EmitField(obj, column, tables, st))
    decreases obj, 0, 0
  {
    var r := EmitField(obj, column, tables, st);
    var found := FindPairByKey(obj, column);
    if found.None? {
      assert r == st;
      StartsRowsNone(st);
    } else {
      var v := obj.pairs[found.value].value;
      var nested := FirstTableNamed(tables, column, 0);
      if !(v.Object? || v.Array?) || nested.None? {
        assert r == st;
        StartsRowsNone(st);
      } else {
        var s1 := Open(st, tables[nested.value].name);
        if v.Object? {
          assert r == EmitObject(v, tables[nested.value], s1.nextId, tables, Allocate(s1));
          AllocatedObjectIds(v, tables[nested.value], tables, s1);
        } else {
          assert r == EmitArray(v, tables[nested.value], tables, s1);
          ArrayIds(v, tables[nested.value], tables, s1);
        }
      }
    }
  }

  lemma {:induction false} ArrayIds(arr: Value, t: Table, tables: seq<Table>, st: Output)
    ensures StartsRowsInOrder(st, EmitArray(arr, t, tables, st))
    decreases arr, 2, 0
  {
    if arr.Array? {
      ElementsIds(arr, t, 0, tables, st);
    } else {
      StartsRowsNone(st);
    }
  }

  lemma {:induction false} ElementsIds(arr: Value, t: Table, i: nat, tables: seq<Table>, st: Output)
    requires arr.Array?
    ensures StartsRowsInOrder(st, EmitElements(arr, t, i, tables, st))
    decreases arr, 1, |arr.elements| - i
  {
    if i >= |arr.elements| {
      StartsRowsNone(st);
    } else {
      var e := arr.elements[i];
      var s1 := if e.Object? then EmitObject(e, t, st.nextId, tables, Allocate(st)) else st;
      if e.Object? {
        AllocatedObjectIds(e, t, tables, st);
      } else {
        StartsRowsNone(st);
      }
      ElementsIds(arr, t, i + 1, tables, s1);
      StartsRowsTrans(st, s1, EmitElements(arr, t, i + 1, tables, s1));
    }
  }

  /** A pass starts one row per id it hands out, in order. */
  lemma TablePassIds(root: Value, t: Table, tables: seq<Table>, st: Output)
    ensures StartsRowsInOrder(st, TablePass(root, t, tables, st))
  {
    var s1 := WriteLine(Truncate(st, t.name), t.name, Header(t.columns));
    assert s1.nextId == st.nextId && s1.rowIds == st.rowIds;
    if root.Object? {
      AllocatedObjectIds(root, t, tables, s1);
    } else if root.Array? {
      ElementsIds(root, t, 0, tables, s1);
    } else {
      StartsRowsNone(st);
    }
  }

  lemma {:induction false} PassesIds(root: Value, tables: seq<Table>, k: nat, st: Output)
    ensures StartsRowsInOrder(st, Passes(root, tables, k, st))
    decreases |tables| - k
  {
    if k >= |tables| {
      StartsRowsNone(st);
    } else {
      var s1 := TablePass(root, tables[k], tables, st);
      var r := Passes(root, tables, k + 1, s1);
      assert Passes(root, tables, k, st) == r;
      TablePassIds(root, tables[k], tables, st);
      PassesIds(root, tables, k + 1, s1);
      StartsRowsTrans(st, s1, r);
    }
  }

  /**
   * From a fresh context (ids start at 1), the rows started by a whole run
   * carry the ids 1, 2, ..., each once and in increasing order, and no id
   * is handed out without a row.
   */
  lemma GenerateIds(root: Option<Value>, schema: Option<Schema>)
    ensures var r := Generate(root, schema, Output(1, map[], []));
      1 <= r.nextId && r.rowIds == Range(1, r.nextId) && StrictlyIncreasing(r.rowIds)
  {
    var st := Output(1, map[], []);
    if root.Some? && schema.Some? {
      PassesIds(root.value, schema.value.tables, 0, st);
    } else {
      assert Range(1, 1) == [];
    }
    var r := Generate(root, schema, st);
    RangeIncreasing(1, r.nextId);
  }

  /** A nested row's id is larger than the id of the row that fanned it out. */
  lemma NestedIdsLarger(obj: Value, t: Table, id: int, tables: seq<Table>, st: Output)
    requires obj.Object? && id < st.nextId
    ensures var r := EmitObject(obj, t, id, tables, st);
      && |r.rowIds| > |st.rowIds| && r.rowIds[|st.rowIds|] == id
      && forall m :: |st.rowIds| < m < |r.rowIds| ==> r.rowIds[m] > id
  {
    ObjectIds(obj, t, id, tables, st);
    var r := EmitObject(obj, t, id, tables, st);
    assert forall m :: |st.rowIds| < m < |r.rowIds| ==> r.rowIds[m] == st.nextId + (m - |st.rowIds| - 1);
  }

  // ---------------------------------------------------------------------
  // Files only grow, by rows
  // ---------------------------------------------------------------------

  /** `g` is `f` followed by data rows whose ids lie in [lo, hi). */
  ghost predicate ExtendsWithRows(f: seq<Line>, g: seq<Line>, lo: int, hi: int) {
    && f <= g
    && forall m :: |f| <= m < |g| ==> g[m].Row? && lo <= g[m].id < hi
  }

  /** Every file of `b` extends the same file of `a` by rows with ids in [lo, hi). */
  ghost predicate AppendsRows(a: map<string, seq<Line>>, b: map<string, seq<Line>>, lo: int, hi: int) {
    && (forall n :: n in a ==> n in b)
    && forall n :: ExtendsWithRows(FileOf(a, n), FileOf(b, n), lo, hi)
  }

  lemma AppendsRowsTrans(a: map<string, seq<Line>>, b: map<string, seq<Line>>, c: map<string, seq<Line>>,
                         lo1: int, hi1: int, lo2: int, hi2: int)
    requires AppendsRows(a, b, lo1, hi1) && AppendsRows(b, c, lo2, hi2)
    ensures forall lo, hi :: lo <= lo1 && lo <= lo2 && hi1 <= hi && hi2 <= hi ==> AppendsRows(a, c, lo, hi)
  {
    forall lo, hi, n | lo <= lo1 && lo <= lo2 && hi1 <= hi && hi2 <= hi
      ensures ExtendsWithRows(FileOf(a, n), FileOf(c, n), lo, hi)
    {
      assert ExtendsWithRows(FileOf(a, n), FileOf(b, n), lo1, hi1);
      assert ExtendsWithRows(FileOf(b, n), FileOf(c, n), lo2, hi2);
    }
  }

  lemma AppendsRowsRefl(a: map<string, seq<Line>>, lo: int, hi: int)
    ensures AppendsRows(a, a, lo, hi)
  {
  }

  lemma OpenAppends(st: Output, name: string, lo: int, hi: int)
    ensures AppendsRows(st.files, Open(st, name).files, lo, hi)
  {
    forall n ensures ExtendsWithRows(FileOf(st.files, n), FileOf(Open(st, name).files, n), lo, hi) {
    }
  }

  lemma WriteRowAppends(st: Output, name: string, id: int, cells: seq<string>, lo: int, hi: int)
    requires lo <= id < hi
    ensures AppendsRows(st.files, WriteLine(st, name, Row(id, cells)).files, lo, hi)
  {
    var r := WriteLine(st, name, Row(id, cells));
    forall n ensures ExtendsWithRows(FileOf(st.files, n), FileOf(r.files, n), lo, hi) {
      if n == name {
        assert FileOf(r.files, n) == FileOf(st.files, n) + [Row(id, cells)];
      }
    }
  }

  /** An object's emission only appends rows: its own (with id `id`) and the ones it fans out. */
  lemma {:induction false} ObjectAppends(obj: Value, t: Table, id: int, tables: seq<Table>, st: Output)
    requires id < st.nextId
    ensures var r := EmitObject(obj, t, id, tables, st);
      st.nextId <= r.nextId && AppendsRows(st.files, r.files, id, r.nextId)
    decreases obj, 2, 0
  {
    var r := EmitObject(obj, t, id, tables, st);
    if !obj.Object? {
      AppendsRowsRefl(st.files, id, r.nextId);
    } else {
      var s0 := st.(rowIds := st.rowIds + [id]);
      var s1 := EmitFields(obj, t, 1, tables, s0);
      FieldsAppends(obj, t, 1, tables, s0);
      WriteRowAppends(s1, t.name, id, RowCells(obj, Tail(t.columns)), id, r.nextId);
      AppendsRowsTrans(st.files, s1.files, r.files, st.nextId, s1.nextId, id, r.nextId);
    }
  }

  lemma {:induction false} FieldsAppends(obj: Value, t: Table, i: nat, tables: seq<Table>, st: Output)
    ensures var r := EmitFields(obj, t, i, tables, st);
      st.nextId <= r.nextId && AppendsRows(st.files, r.files, st.nextId, r.nextId)
    decreases obj, 1, |t.columns| - i
  {
    if i >= |t.columns| {
      AppendsRowsRefl(st.files, st.nextId, st.nextId);
    } else {
      var s1 := EmitField(obj, t.columns[i], tables, st);
      var r := EmitFields(obj, t, i + 1, tables, s1);
      FieldAppends(obj, t.columns[i], tables, st);
      FieldsAppends(obj, t, i + 1, tables, s1);
      AppendsRowsTrans(st.files, s1.files, r.files, st.nextId, s1.nextId, s1.nextId, r.nextId);
    }
  }

  lemma {:induction false} FieldAppends(obj: Value, column: string, tables: seq<Table>, st: Output)
    ensures var r := EmitField(obj, column, tables, st);
      st.nextId <= r.nextId && AppendsRows(st.files, r.files, st.nextId, r.nextId)
    // a nested object or array opens its table's file in append mode, which creates it
    ensures var found := FindPairByKey(obj, column);
      found.Some? && (obj.pairs[found.value].value.Object? || obj.pairs[found.value].value.Array?) &&
      FirstTableNamed(tables, column, 0).Some? ==>
        tables[FirstTableNamed(tables, column, 0).value].name in EmitField(obj, column, tables, st).files
    decreases obj, 0, 0
  {
    AppendsRowsRefl(st.files, st.nextId, st.nextId);
    match FindPairByKey(obj, column)
    case None =>
    case Some(k) =>
      var v := obj.pairs[k].value;
      if v.Object? || v.Array? {
        match FirstTableNamed(tables, column, 0)
        case None =>
        case Some(n) =>
          var s1 := Open(st, tables[n].name);
          var r := EmitField(obj, column, tables, st);
          OpenAppends(st, tables[n].name, st.nextId, st.nextId);
          if v.Object? {
            ObjectAppends(v, tables[n], s1.nextId, tables, Allocate(s1));
          } else {
            ArrayAppends(v, tables[n], tables, s1);
          }
          AppendsRowsTrans(st.files, s1.files, r.files, st.nextId, st.nextId, st.nextId, r.nextId);
      }
  }

  lemma {:induction false} ArrayAppends(arr: Value, t: Table, tables: seq<Table>, st: Output)
    ensures var r := EmitArray(arr, t, tables, st);
      st.nextId <= r.nextId && AppendsRows(st.files, r.files, st.nextId, r.nextId)
    decreases arr, 2, 0
  {
    if arr.Array? {
      ElementsAppends(arr, t, 0, tables, st);
    } else {
      AppendsRowsRefl(st.files, st.nextId, st.nextId);
    }
  }

  lemma {:induction false} ElementsAppends(arr: Value, t: Table, i: nat, tables: seq<Table>, st: Output)
    requires arr.Array?
    ensures var r := EmitElements(arr, t, i, tables, st);
      st.nextId <= r.nextId && AppendsRows(st.files, r.files, st.nextId, r.nextId)
    decreases arr, 1, |arr.elements| - i
  {
    if i >= |arr.elements| {
      AppendsRowsRefl(st.files, st.nextId, st.nextId);
    } else {
      var e := arr.elements[i];
      var s1 := if e.Object? then EmitObject(e, t, st.nextId, tables, Allocate(st)) else st;
      var r := EmitElements(arr, t, i + 1, tables, s1);
      if e.Object? {
        ObjectAppends(e, t, st.nextId, tables, Allocate(st));
      } else {
        AppendsRowsRefl(st.files, st.nextId, st.nextId);
      }
      ElementsAppends(arr, t, i + 1, tables, s1);
      AppendsRowsTrans(st.files, s1.files, r.files, st.nextId, s1.nextId, s1.nextId, r.nextId);
    }
  }

  // ---------------------------------------------------------------------
  // One table's pass
  // ---------------------------------------------------------------------

  /**
   * After the pass for `t`, its file holds the header and then only rows
   * started during the pass: whatever it held before, nested rows appended
   * by earlier passes included, is gone. From an object root the last line
   * is the root's own row with the pass's first id; from a root that is
   * neither an object nor an array only the header is left. Every other
   * file only gains rows of the pass.
   */
  lemma TablePassFile(root: Value, t: Table, tables: seq<Table>, st: Output)
    ensures var r := TablePass(root, t, tables, st);
      var f := FileOf(r.files, t.name);
      && st.nextId <= r.nextId
      && |f| >= 1 && f[0] == Header(t.columns)
      && (forall m :: 1 <= m < |f| ==> f[m].Row? && st.nextId <= f[m].id < r.nextId)
      && (root.Object? ==> f[|f| - 1] == Row(st.nextId, RowCells(root, Tail(t.columns))))
      && (!root.Object? && !root.Array? ==> f == [Header(t.columns)])
      && (forall n :: n in st.files ==> n in r.files)
      && forall n :: n != t.name ==> ExtendsWithRows(FileOf(st.files, n), FileOf(r.files, n), st.nextId, r.nextId)
  {
    var s1 := WriteLine(Truncate(st, t.name), t.name, Header(t.columns));
    var r := TablePass(root, t, tables, st);
    assert FileOf(s1.files, t.name) == [Header(t.columns)];
    if root.Object? {
      ObjectAppends(root, t, s1.nextId, tables, Allocate(s1));
    } else if root.Array? {
      ElementsAppends(root, t, 0, tables, s1);
    } else {
      AppendsRowsRefl(s1.files, st.nextId, st.nextId);
    }
    assert AppendsRows(s1.files, r.files, st.nextId, r.nextId);
    forall n | n != t.name
      ensures ExtendsWithRows(FileOf(st.files, n), FileOf(r.files, n), st.nextId, r.nextId)
    {
      assert FileOf(s1.files, n) == FileOf(st.files, n);
      assert ExtendsWithRows(FileOf(s1.files, n), FileOf(r.files, n), st.nextId, r.nextId);
    }
    assert ExtendsWithRows(FileOf(s1.files, t.name), FileOf(r.files, t.name), st.nextId, r.nextId);
  }

  /** The passes from position `k` on only append rows to a file none of them truncates. */
  lemma {:induction false} PassesKeep(root: Value, tables: seq<Table>, k: nat, st: Output, name: string)
    requires forall j :: k <= j < |tables| ==> tables[j].name != name
    ensures var r := Passes(root, tables, k, st);
      st.nextId <= r.nextId && ExtendsWithRows(FileOf(st.files, name), FileOf(r.files, name), st.nextId, r.nextId)
    decreases |tables| - k
  {
    if k < |tables| {
      var s1 := TablePass(root, tables[k], tables, st);
      TablePassFile(root, tables[k], tables, st);
      PassesKeep(root, tables, k + 1, s1, name);
    }
  }

  /** A file holding a header and then rows still does so after more rows are appended. */
  lemma HeaderThenRows(f1: seq<Line>, f: seq<Line>, header: Line, lo: int, hi: int)
    requires |f1| >= 1 && f1[0] == header && forall m :: 1 <= m < |f1| ==> f1[m].Row?
    requires ExtendsWithRows(f1, f, lo, hi)
    ensures |f| >= 1 && f[0] == header && forall m :: 1 <= m < |f| ==> f[m].Row?
  {
    forall m | 1 <= m < |f|
      ensures f[m].Row?
    {
      if m < |f1| {
        assert f[m] == f1[m];
      }
    }
  }

  /**
   * After a run, the file of every table whose pass is the last for its
   * name starts with that table's header, and everything after it is a
   * data row.
   */
  lemma {:induction false} PassesHeaders(root: Value, tables: seq<Table>, k: nat, st: Output, j: nat)
    requires k <= j < |tables|
    requires forall j' :: j < j' < |tables| ==> tables[j'].name != tables[j].name
    ensures var f := FileOf(Passes(root, tables, k, st).files, tables[j].name);
      |f| >= 1 && f[0] == Header(tables[j].columns) && forall m :: 1 <= m < |f| ==> f[m].Row?
    decreases |tables| - k
  {
    var s1 := TablePass(root, tables[k], tables, st);
    if j == k {
      var name := tables[j].name;
      TablePassFile(root, tables[k], tables, st);
      PassesKeep(root, tables, k + 1, s1, name);
      var r := Passes(root, tables, k + 1, s1);
      assert Passes(root, tables, k, st) == r;
      HeaderThenRows(FileOf(s1.files, name), FileOf(r.files, name), Header(tables[j].columns), s1.nextId, r.nextId);
    } else {
      PassesHeaders(root, tables, k + 1, s1, j);
    }
  }

  // ---------------------------------------------------------------------
  // Routing of nested rows
  // ---------------------------------------------------------------------

  /** process_object's completed row is the last line of its table's file. */
  lemma ObjectRowLast(obj: Value, t: Table, id: int, tables: seq<Table>, st: Output)
    requires obj.Object?
    ensures var f := FileOf(EmitObject(obj, t, id, tables, st).files, t.name);
      |f| >= 1 && f[|f| - 1] == Row(id, RowCells(obj, Tail(t.columns)))
  {
  }

  /**
   * A column fans out only when the object holds its key with an object or
   * array value and some table bears its name; a nested object then
   * becomes a row with the next id at the end of the FIRST such table's
   * file.
   */
  lemma FieldRouting(obj: Value, column: string, tables: seq<Table>, st: Output)
    ensures var r := EmitField(obj, column, tables, st);
      var found := FindPairByKey(obj, column);
      && (|| found.None?
          || !(obj.pairs[found.value].value.Object? || obj.pairs[found.value].value.Array?)
          || FirstTableNamed(tables, column, 0).None?
          ==> r == st)
      && (found.Some? && obj.pairs[found.value].value.Object? && FirstTableNamed(tables, column, 0).Some? ==>
            var n := FirstTableNamed(tables, column, 0).value;
            var v := obj.pairs[found.value].value;
            var f := FileOf(r.files, tables[n].name);
            && (forall j :: 0 <= j < n ==> tables[j].name != column)
            && |f| >= 1 && f[|f| - 1] == Row(st.nextId, RowCells(v, Tail(tables[n].columns)))
            && |r.rowIds| > |st.rowIds| && r.rowIds[|st.rowIds|] == st.nextId)
  {
    var found := FindPairByKey(obj, column);
    if found.Some? && obj.pairs[found.value].value.Object? && FirstTableNamed(tables, column, 0).Some? {
      var n := FirstTableNamed(tables, column, 0).value;
      var v := obj.pairs[found.value].value;
      var s1 := Open(st, tables[n].name);
      ObjectRowLast(v, tables[n], s1.nextId, tables, Allocate(s1));
      ObjectIds(v, tables[n], s1.nextId, tables, Allocate(s1));
    }
  }

  /** The object elements of a sequence of values, in order. */
  function ObjectsOf(els: seq<Value>): seq<Value> {
    if els == [] then []
    else (if els[0].Object? then [els[0]] else []) + ObjectsOf(els[1..])
  }

  /** The rows of consecutive objects, with consecutive ids from `id`. */
  function FlatRows(objs: seq<Value>, t: Table, id: int): seq<Line> {
    if objs == [] then [] else [Row(id, RowCells(objs[0], Tail(t.columns)))] + FlatRows(objs[1..], t, id + 1)
  }

  /** No table bears the name of a column of `t` after the first: nothing fans out. */
  predicate NoFanOut(t: Table, tables: seq<Table>) {
    forall i :: 1 <= i < |t.columns| ==> FirstTableNamed(tables, t.columns[i], 0).None?
  }

  lemma {:induction false} FieldsWithoutFanOut(obj: Value, t: Table, i: nat, tables: seq<Table>, st: Output)
    requires NoFanOut(t, tables) && i >= 1
    ensures EmitFields(obj, t, i, tables, st) == st
    decreases |t.columns| - i
  {
    if i < |t.columns| {
      FieldsWithoutFanOut(obj, t, i + 1, tables, st);
    }
  }

  /**
   * Without fan-out, the emission of an array's elements from position `i`
   * appends to its table's file exactly one row per object element, in
   * order, with consecutive ids, and skips every other element.
   */
  lemma {:induction false} ElementsWithoutFanOut(arr: Value, t: Table, i: nat, tables: seq<Table>, st: Output)
    requires arr.Array? && i <= |arr.elements| && NoFanOut(t, tables)
    ensures var r := EmitElements(arr, t, i, tables, st);
      var objs := ObjectsOf(arr.elements[i..]);
      && r.nextId == st.nextId + |objs|
      && FileOf(r.files, t.name) == FileOf(st.files, t.name) + FlatRows(objs, t, st.nextId)
    decreases |arr.elements| - i
  {
    if i == |arr.elements| {
      assert arr.elements[i..] == [];
    } else {
      var e := arr.elements[i];
      var s1 := if e.Object? then EmitObject(e, t, st.nextId, tables, Allocate(st)) else st;
      var first, rest := ObjectsOf([e]), ObjectsOf(arr.elements[i + 1..]);
      assert arr.elements[i..] == [e] + arr.elements[i + 1..];
      ObjectsOfConcat([e], arr.elements[i + 1..]);
      var r := EmitElements(arr, t, i + 1, tables, s1);
      assert EmitElements(arr, t, i, tables, st) == r;
      ElementWithoutFanOut(e, t, tables, st);
      ElementsWithoutFanOut(arr, t, i + 1, tables, s1);
      RowsCompose(FileOf(st.files, t.name), FileOf(s1.files, t.name), FileOf(r.files, t.name), first, rest, t, st.nextId);
    }
  }

  /** Rows appended in two steps are the rows of the two runs of objects together. */
  lemma RowsCompose(f0: seq<Line>, f1: seq<Line>, f2: seq<Line>, first: seq<Value>, rest: seq<Value>, t: Table, id: int)
    requires f1 == f0 + FlatRows(first, t, id)
    requires f2 == f1 + FlatRows(rest, t, id + |first|)
    ensures f2 == f0 + FlatRows(first + rest, t, id)
  {
    FlatRowsConcat(first, rest, t, id);
  }

  /** Without fan-out, one element adds its row when it is an object and nothing otherwise. */
  lemma ElementWithoutFanOut(e: Value, t: Table, tables: seq<Table>, st: Output)
    requires NoFanOut(t, tables)
    ensures var s1 := if e.Object? then EmitObject(e, t, st.nextId, tables, Allocate(st)) else st;
      && s1.nextId == st.nextId + |ObjectsOf([e])|
      && FileOf(s1.files, t.name) == FileOf(st.files, t.name) + FlatRows(ObjectsOf([e]), t, st.nextId)
  {
    assert ObjectsOf([e]) == (if e.Object? then [e] else []) + ObjectsOf([]);
    if e.Object? {
      ObjectWithoutFanOut(e, t, st.nextId, tables, Allocate(st));
    }
  }

  lemma {:induction false} ObjectsOfConcat(a: seq<Value>, b: seq<Value>)
    ensures ObjectsOf(a + b) == ObjectsOf(a) + ObjectsOf(b)
  {
    if a != [] {
      assert (a + b)[1..] == a[1..] + b;
      ObjectsOfConcat(a[1..], b);
    } else {
      assert a + b == b;
    }
  }

  lemma {:induction false} FlatRowsConcat(a: seq<Value>, b: seq<Value>, t: Table, id: int)
    ensures FlatRows(a + b, t, id) == FlatRows(a, t, id) + FlatRows(b, t, id + |a|)
  {
    if a != [] {
      assert (a + b)[1..] == a[1..] + b;
      FlatRowsConcat(a[1..], b, t, id + 1);
    } else {
      assert a + b == b;
    }
  }

  /** Without fan-out, an object adds just its own row and uses no further id. */
  lemma ObjectWithoutFanOut(obj: Value, t: Table, id: int, tables: seq<Table>, st: Output)
    requires obj.Object? && NoFanOut(t, tables)
    ensures var r := EmitObject(obj, t, id, tables, st);
      && r.nextId == st.nextId
      && FileOf(r.files, t.name) == FileOf(st.files, t.name) + [Row(id, RowCells(obj, Tail(t.columns)))]
  {
    FieldsWithoutFanOut(obj, t, 1, tables, st.(rowIds := st.rowIds + [id]));
  }

  /** process_array without fan-out: one row per object element, nothing for the rest. */
  lemma ArrayWithoutFanOut(arr: Value, t: Table, tables: seq<Table>, st: Output)
    requires arr.Array? && NoFanOut(t, tables)
    ensures var r := EmitArray(arr, t, tables, st);
      && r.nextId == st.nextId + |ObjectsOf(arr.elements)|
      && FileOf(r.files, t.name) == FileOf(st.files, t.name) + FlatRows(ObjectsOf(arr.elements), t, st.nextId)
  {
    ElementsWithoutFanOut(arr, t, 0, tables, st);
    assert arr.elements[0..] == arr.elements;
  }

  // ---------------------------------------------------------------------
  // Array rows under any fan-out
  // ---------------------------------------------------------------------

  /** `a` is what is left of `b` after deleting some of its lines. */
  ghost predicate Subsequence(a: seq<Line>, b: seq<Line>)
    decreases |b|
  {
    a == [] || (b != [] && ((a[0] == b[0] && Subsequence(a[1..], b[1..])) || Subsequence(a, b[1..])))
  }

  /** Lines written in front do not disturb a subsequence. */
  lemma {:induction false} SubsequenceAfter(a: seq<Line>, c: seq<Line>, b: seq<Line>)
    requires Subsequence(a, b)
    ensures Subsequence(a, c + b)
    decreases |c|
  {
    if c == [] {
      assert c + b == b;
    } else {
      assert (c + b)[1..] == c[1..] + b;
      SubsequenceAfter(a, c[1..], b);
    }
  }

  /** The rows of `objs` in order, the k-th with id ids[k]. */
  function IdRows(objs: seq<Value>, ids: seq<int>, t: Table): seq<Line>
    requires |objs| == |ids|
  {
    if objs == [] then [] else [Row(ids[0], RowCells(objs[0], Tail(t.columns)))] + IdRows(objs[1..], ids[1..], t)
  }

  /**
   * An object processed with a freshly allocated id grows its table's file:
   * the old lines stay in front and the object's row comes last, after
   * whatever it fanned out into the same file.
   */
  lemma ObjectRowAppended(obj: Value, t: Table, tables: seq<Table>, st: Output)
    requires obj.Object?
    ensures var r := EmitObject(obj, t, st.nextId, tables, Allocate(st));
      var f0, f := FileOf(st.files, t.name), FileOf(r.files, t.name);
      && st.nextId < r.nextId
      && |f0| < |f| && f0 <= f
      && f[|f| - 1] == Row(st.nextId, RowCells(obj, Tail(t.columns)))
  {
    var s0 := Allocate(st).(rowIds := st.rowIds + [st.nextId]);
    var s1 := EmitFields(obj, t, 1, tables, s0);
    FieldsAppends(obj, t, 1, tables, s0);
    assert ExtendsWithRows(FileOf(s0.files, t.name), FileOf(s1.files, t.name), s0.nextId, s1.nextId);
  }

  /**
   * A file that grew from `f0` to `f1` with `row` last, and then on to `f`
   * with `rows` among the lines after `f1`, holds `row` and then `rows`
   * among the lines after `f0`.
   */
  lemma RowBeforeRest(f0: seq<Line>, f1: seq<Line>, f: seq<Line>, row: Line, rows: seq<Line>)
    requires f0 <= f1 && |f0| < |f1| && f1[|f1| - 1] == row
    requires f1 <= f && Subsequence(rows, f[|f1|..])
    ensures Subsequence([row] + rows, f[|f0|..])
  {
    var nested := f1[|f0|..|f1| - 1];
    var tail := [row] + f[|f1|..];
    assert f[|f0|..] == nested + tail;
    assert tail[1..] == f[|f1|..];
    assert Subsequence([row] + rows, tail);
    SubsequenceAfter([row] + rows, nested, tail);
  }

  /** An id below a run of increasing ids from [lo, hi) starts a longer such run. */
  lemma IncreasingCons(x: int, rest: seq<int>, lo: int, hi: int)
    requires x < lo <= hi && StrictlyIncreasing(rest)
    requires forall k :: 0 <= k < |rest| ==> lo <= rest[k] < hi
    ensures StrictlyIncreasing([x] + rest)
    ensures forall k :: 0 <= k < |rest| + 1 ==> x <= ([x] + rest)[k] < hi
  {
    assert forall k :: 0 < k < |rest| + 1 ==> ([x] + rest)[k] == rest[k - 1];
  }

  /**
   * Between `a` and `b`, the file of `t` kept its lines in front and gained
   * the rows of `objs` in order, the k-th with id ids[k], among possibly
   * other lines; the ids increase and were handed out between `a` and `b`.
   */
  ghost predicate RowsInOrder(objs: seq<Value>, ids: seq<int>, t: Table, a: Output, b: Output) {
    var f0, f := FileOf(a.files, t.name), FileOf(b.files, t.name);
    && a.nextId <= b.nextId
    && |ids| == |objs| && StrictlyIncreasing(ids)
    && (forall k :: 0 <= k < |ids| ==> a.nextId <= ids[k] < b.nextId)
    && f0 <= f
    && Subsequence(IdRows(objs, ids, t), f[|f0|..])
  }

  /** An object row appended between `st` and `s1`, followed by rows in order up to `r`. */
  lemma RowsInOrderCons(e: Value, objs: seq<Value>, ids: seq<int>, t: Table, st: Output, s1: Output, r: Output)
    requires st.nextId < s1.nextId
    requires var f0, f1 := FileOf(st.files, t.name), FileOf(s1.files, t.name);
      f0 <= f1 && |f0| < |f1| && f1[|f1| - 1] == Row(st.nextId, RowCells(e, Tail(t.columns)))
    requires RowsInOrder(objs, ids, t, s1, r)
    ensures RowsInOrder([e] + objs, [st.nextId] + ids, t, st, r)
  {
    var row := Row(st.nextId, RowCells(e, Tail(t.columns)));
    var all, allIds := [e] + objs, [st.nextId] + ids;
    assert all[1..] == objs && allIds[1..] == ids;
    assert IdRows(all, allIds, t) == [row] + IdRows(objs, ids, t);
    RowBeforeRest(FileOf(st.files, t.name), FileOf(s1.files, t.name), FileOf(r.files, t.name), row, IdRows(objs, ids, t));
    IncreasingCons(st.nextId, ids, s1.nextId, r.nextId);
  }

  /**
   * Under any fan-out, the element loop leaves one row per object element
   * in the file of `t`, in element order, with increasing ids it handed
   * out; rows fanned out into the same file may fall between them, and
   * the lines the file held before stay in front.
   */
  lemma {:induction false} ElementsRowsInOrder(arr: Value, t: Table, i: nat, tables: seq<Table>, st: Output)
    returns (ids: seq<int>)
    requires arr.Array? && i <= |arr.elements|
    ensures RowsInOrder(ObjectsOf(arr.elements[i..]), ids, t, st, EmitElements(arr, t, i, tables, st))
    decreases |arr.elements| - i
  {
    if i == |arr.elements| {
      assert arr.elements[i..] == [];
      assert ObjectsOf(arr.elements[i..]) == [];
      assert IdRows([], [], t) == [];
      ids := [];
    } else {
      var e := arr.elements[i];
      var s1 := if e.Object? then EmitObject(e, t, st.nextId, tables, Allocate(st)) else st;
      var r := EmitElements(arr, t, i + 1, tables, s1);
      assert EmitElements(arr, t, i, tables, st) == r;
      var restObjs := ObjectsOf(arr.elements[i + 1..]);
      assert arr.elements[i..] == [e] + arr.elements[i + 1..];
      ObjectsOfConcat([e], arr.elements[i + 1..]);
      assert ObjectsOf([e]) == (if e.Object? then [e] else []) + ObjectsOf([]);
      var rest := ElementsRowsInOrder(arr, t, i + 1, tables, s1);
      if e.Object? {
        ObjectRowAppended(e, t, tables, st);
        RowsInOrderCons(e, restObjs, rest, t, st, s1, r);
        assert ObjectsOf(arr.elements[i..]) == [e] + restObjs;
        ids := [st.nextId] + rest;
      } else {
        assert ObjectsOf(arr.elements[i..]) == restObjs;
        ids := rest;
      }
    }
  }

  /** process_array under any fan-out: the rows of its object elements, in order, with increasing ids. */
  lemma ArrayRowsInOrder(arr: Value, t: Table, tables: seq<Table>, st: Output) returns (ids: seq<int>)
    requires arr.Array?
    ensures RowsInOrder(ObjectsOf(arr.elements), ids, t, st, EmitArray(arr, t, tables, st))
  {
    assert arr.elements[0..] == arr.elements;
    ids := ElementsRowsInOrder(arr, t, 0, tables, st);
  }

  /**
   * A column holding an array fans it out into the FIRST table bearing the
   * column's name: that file keeps its lines and then holds the rows of
   * the array's object elements, in order, with increasing ids.
   */
  lemma FieldArrayRouting(obj: Value, column: string, tables: seq<Table>, st: Output) returns (ids: seq<int>)
    requires FindPairByKey(obj, column).Some?
    requires obj.pairs[FindPairByKey(obj, column).value].value.Array?
    requires FirstTableNamed(tables, column, 0).Some?
    ensures var n := FirstTableNamed(tables, column, 0).value;
      var v := obj.pairs[FindPairByKey(obj, column).value].value;
      && (forall j :: 0 <= j < n ==> tables[j].name != column)
      && RowsInOrder(ObjectsOf(v.elements), ids, tables[n], st, EmitField(obj, column, tables, st))
  {
    var v := obj.pairs[FindPairByKey(obj, column).value].value;
    var n := FirstTableNamed(tables, column, 0).value;
    var s1 := Open(st, tables[n].name);
    assert FileOf(s1.files, tables[n].name) == FileOf(st.files, tables[n].name);
    ids := ArrayRowsInOrder(v, tables[n], tables, s1);
  }
}
