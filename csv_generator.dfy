/**
 * The emission engine of csv_generator.c: one pass per table that truncates
 * the table's file, writes its header and then the rows sourced from the
 * root, fanning nested objects and arrays out into the files of the tables
 * named after their columns, with one shared id counter.
 *
 * The specification functions below describe a run on an immutable
 * `Output` value; the `CsvContext` class performs the same run in place and
 * is proved to end in the state the functions describe.
 */
module CsvGenerator {
  import opened Common
  import opened Ast
  import opened CsvFields

  /** The output directory used when none, or an empty one, is given. */
  const DefaultOutputDir := "./csv_output"

  /**
   * What a run has produced so far: the next id to hand out, the lines of
   * every file written (by table name), and the ids of the rows in the
   * order they were started (a row starts when its id is written).
   */
  datatype Output = Output(nextId: int, files: map<string, seq<Line>>, rowIds: seq<int>)

  /** The lines of a file; a file that was never opened holds none. */
  function FileOf(files: map<string, seq<Line>>, name: string): seq<Line> {
    if name in files then files[name] else []
  }

  /** The post-increment of next_id. */
  function Allocate(st: Output): Output {
    st.(nextId := st.nextId + 1)
  }

  /** Opening a table's file for appending: the file exists afterwards and keeps its lines. */
  function Open(st: Output, name: string): Output {
    st.(files := st.files[name := FileOf(st.files, name)])
  }

  /** Opening a table's file for writing: it is emptied. */
  function Truncate(st: Output, name: string): Output {
    st.(files := st.files[name := []])
  }

  /** One more line at the end of a table's file. */
  function WriteLine(st: Output, name: string, line: Line): Output {
    st.(files := st.files[name := FileOf(st.files, name) + [line]])
  }

  /** Every table has a first column for write_csv_header to print. */
  predicate HeadersWritable(tables: seq<Table>) {
    forall k :: 0 <= k < |tables| ==> |tables[k].columns| >= 1
  }

  /** The first table from position `from` on whose name is `name` (the nested-table search). */
  function FirstTableNamed(tables: seq<Table>, name: string, from: nat): (r: Option<nat>)
    ensures r.Some? ==> from <= r.value < |tables| && tables[r.value].name == name
    ensures r.Some? ==> forall j :: from <= j < r.value ==> tables[j].name != name
    ensures r.None? ==> forall j :: from <= j < |tables| ==> tables[j].name != name
  {
    FirstWithKey(tables, TableName, name, from)
  }

  /**
   * process_object: a non-object writes nothing. Otherwise the row with id
   * `id` is started, the columns after the first are visited in order (each
   * may emit nested rows elsewhere), and the completed row lands at the end
   * of the file of table `t`.
   */
  function EmitObject(obj: Value, t: Table, id: int, tables: seq<Table>, st: Output): Output
    decreases obj, 2, 0
  {
    if !obj.Object? then st
    else
      var s1 := EmitFields(obj, t, 1, tables, st.(rowIds := st.rowIds + [id]));
      WriteLine(s1, t.name, Row(id, RowCells(obj, Tail(t.columns))))
  }

  /** The loop of process_object over the columns of `t` from position `i` on. */
  function EmitFields(obj: Value, t: Table, i: nat, tables: seq<Table>, st: Output): Output
    decreases obj, 1, |t.columns| - i
  {
    if i >= |t.columns| then st
    else EmitFields(obj, t, i + 1, tables, EmitField(obj, t.columns[i], tables, st))
  }

  /**
   * The nested fan-out of one column: when the object holds the column's
   * key with an object or array value and some table bears the column's
   * name, the first such table's file is opened for appending and receives
   * the nested object (with a fresh id) or the array's objects.
   */
  function EmitField(obj: Value, column: string, tables: seq<Table>, st: Output): Output
    decreases obj, 0, 0
  {
    match FindPairByKey(obj, column)
    case None => st
    case Some(k) =>
      var v := obj.pairs[k].value;
      if !(v.Object? || v.Array?) then st
      else
        match FirstTableNamed(tables, column, 0)
        case None => st
        case Some(n) =>
          var s1 := Open(st, tables[n].name);
          if v.Object? then EmitObject(v, tables[n], s1.nextId, tables, Allocate(s1))
          else EmitArray(v, tables[n], tables, s1)
  }

  /** process_array: every object element becomes a row with a fresh id; other elements are skipped. */
  function EmitArray(arr: Value, t: Table, tables: seq<Table>, st: Output): Output
    decreases arr, 2, 0
  {
    if !arr.Array? then st else EmitElements(arr, t, 0, tables, st)
  }

  /** The loop over the elements of `arr` from position `i` on. */
  function EmitElements(arr: Value, t: Table, i: nat, tables: seq<Table>, st: Output): Output
    requires arr.Array?
    decreases arr, 1, |arr.elements| - i
  {
    if i >= |arr.elements| then st
    else
      var e := arr.elements[i];
      var s1 := if e.Object? then EmitObject(e, t, st.nextId, tables, Allocate(st)) else st;
      EmitElements(arr, t, i + 1, tables, s1)
  }

  /**
   * The pass of generate_csv for table `t`: truncate its file, write the
   * header, then one row from an object root or one row per object element
   * of an array root; any other root adds nothing after the header.
   */
  function TablePass(root: Value, t: Table, tables: seq<Table>, st: Output): Output {
    var s1 := WriteLine(Truncate(st, t.name), t.name, Header(t.columns));
    if root.Object? then EmitObject(root, t, s1.nextId, tables, Allocate(s1))
    else if root.Array? then EmitElements(root, t, 0, tables, s1)
    else s1
  }

  /** The passes for the tables from position `k` on, in schema order. */
  function Passes(root: Value, tables: seq<Table>, k: nat, st: Output): Output
    decreases |tables| - k
  {
    if k >= |tables| then st else Passes(root, tables, k + 1, TablePass(root, tables[k], tables, st))
  }

  /** generate_csv: nothing happens without a root or a schema. */
  function Generate(root: Option<Value>, schema: Option<Schema>, st: Output): Output {
    if root.None? || schema.None? then st else Passes(root.value, schema.value.tables, 0, st)
  }

  /**
   * write_node_value: the text of the cell for a value, through
   * escape_csv_field for strings; a missing value writes nothing.
   */
  method WriteNodeValue(node: Option<Value>) returns (text: string)
    ensures node.None? ==> text == ""
    ensures node.Some? ==> text == CellText(node.value)
  {
    if node.None? {
      return "";
    }
    match node.value
    case String(s) =>
      text := EscapeCsvField(Some(s));
    case Number(n) =>
      text := IntText(n);
    case Boolean(b) =>
      text := if b then "true" else "false";
    case Null =>
      text := "";
    case Object(_) =>
      text := "";
    case Array(_) =>
      text := "";
  }

  /** The generation context: the output directory, the shared id counter and the files written. */
  class CsvContext {
    var outputDir: string
    var nextId: int
    var files: map<string, seq<Line>>
    /** The ids of the rows started so far, in order. */
    ghost var rowIds: seq<int>

    ghost function State(): Output
      reads this
    {
      Output(nextId, files, rowIds)
    }

    constructor (dir: string)
      ensures outputDir == dir && nextId == 1 && files == map[] && rowIds == []
    {
      outputDir := dir;
      nextId := 1;
      files := map[];
      rowIds := [];
    }

    /** write_csv_header: the header line of `t`, which needs a first column. */
    method WriteCsvHeader(t: Table)
      requires |t.columns| >= 1
      modifies this
      ensures State() == WriteLine(old(State()), t.name, Header(t.columns))
      ensures outputDir == old(outputDir)
    {
      files := files[t.name := FileOf(files, t.name) + [Header(t.columns)]];
    }

    /**
     * One pass of generate_csv's table loop: the table's file truncated and
     * given its header, then the rows of the root, or of each object
     * element of an array root.
     */
    method WriteTable(root: Value, t: Table, tables: seq<Table>)
      requires |t.columns| >= 1
      modifies this
      ensures State() == TablePass(root, t, tables, old(State()))
      ensures outputDir == old(outputDir)
    {
      files := files[t.name := []];
      WriteCsvHeader(t);
      if root.Object? {
        var id := nextId;
        nextId := nextId + 1;
        ProcessObject(root, t, id, tables);
      } else if root.Array? {
        ghost var s1 := State();
        var i := 0;
        while i < |root.elements|
          invariant 0 <= i <= |root.elements|
          invariant EmitElements(root, t, i, tables, State()) == EmitElements(root, t, 0, tables, s1)
          invariant outputDir == old(outputDir)
        {
          var element := root.elements[i];
          if element.Object? {
            var id := nextId;
            nextId := nextId + 1;
            ProcessObject(element, t, id, tables);
          }
          i := i + 1;
        }
      }
    }

    /** process_object, writing into the file of table `t`. */
    method ProcessObject(obj: Value, t: Table, id: int, tables: seq<Table>)
      modifies this
      ensures State() == EmitObject(obj, t, id, tables, old(State()))
      ensures outputDir == old(outputDir)
      decreases obj, 1
    {
      if !obj.Object? {
        return;
      }
      rowIds := rowIds + [id];
      ghost var start := State();
      var cells: seq<string> := [];
      var i := 1;
      while i < |t.columns|
        invariant 1 <= i && (i == 1 || i <= |t.columns|)
        invariant |cells| == i - 1
        invariant forall m :: 0 <= m < i - 1 ==> cells[m] == CellFor(obj, t.columns[m + 1])
        invariant EmitFields(obj, t, i, tables, State()) == EmitFields(obj, t, 1, tables, start)
        invariant outputDir == old(outputDir)
        decreases |t.columns| - i
      {
        var text := ProcessColumn(obj, t.columns[i], tables);
        cells := cells + [text];
        i := i + 1;
      }
      assert cells == RowCells(obj, Tail(t.columns));
      files := files[t.name := FileOf(files, t.name) + [Row(id, cells)]];
    }

    /**
     * One column of process_object's loop: the cell text of the object's
     * value for the column, and the fan-out of an object or array value
     * into the first table bearing the column's name.
     */
    method ProcessColumn(obj: Value, column: string, tables: seq<Table>) returns (text: string)
      modifies this
      ensures text == CellFor(obj, column)
      ensures State() == EmitField(obj, column, tables, old(State()))
      ensures outputDir == old(outputDir)
      decreases obj, 0
    {
      text := "";
      var found := FindPairByKey(obj, column);
      if found.None? {
        return;
      }
      var v := obj.pairs[found.value].value;
      text := WriteNodeValue(Some(v));
      if !(v.Object? || v.Array?) {
        return;
      }
      var n := 0;
      while n < |tables| && tables[n].name != column
        invariant 0 <= n <= |tables|
        invariant forall j :: 0 <= j < n ==> tables[j].name != column
      {
        n := n + 1;
      }
      if n == |tables| {
        return;
      }
      var nested := tables[n];
      files := files[nested.name := FileOf(files, nested.name)];
      if v.Object? {
        var nestedId := nextId;
        nextId := nextId + 1;
        ProcessObject(v, nested, nestedId, tables);
      } else {
        ProcessArray(v, nested, tables);
      }
    }

    /** process_array, writing into the file of table `t`. */
    method ProcessArray(arr: Value, t: Table, tables: seq<Table>)
      modifies this
      ensures State() == EmitArray(arr, t, tables, old(State()))
      ensures outputDir == old(outputDir)
      decreases arr, 1
    {
      if !arr.Array? {
        return;
      }
      var i := 0;
      while i < |arr.elements|
        invariant 0 <= i <= |arr.elements|
        invariant EmitElements(arr, t, i, tables, State()) == EmitElements(arr, t, 0, tables, old(State()))
        invariant outputDir == old(outputDir)
      {
        var element := arr.elements[i];
        if element.Object? {
          var id := nextId;
          nextId := nextId + 1;
          ProcessObject(element, t, id, tables);
        }
        i := i + 1;
      }
    }
  }

  /**
   * init_csv_context: the directory is the given one, or the default when
   * none or an empty one is given; the context is missing when that
   * directory could not be created. Ids start at 1.
   */
  method InitCsvContext(outputDir: Option<string>, directoryCreated: bool) returns (context: CsvContext?)
    ensures context == null <==> !directoryCreated
    ensures context != null ==> && fresh(context)
                                && context.outputDir == (if outputDir.None? || outputDir.value == "" then DefaultOutputDir else outputDir.value)
                                && context.nextId == 1 && context.files == map[] && context.rowIds == []
  {
    var dir := if outputDir.None? || outputDir.value == "" then DefaultOutputDir else outputDir.value;
    if !directoryCreated {
      return null;
    }
    context := new CsvContext(dir);
  }

  /**
   * generate_csv: nothing happens when the root, the schema or the context
   * is missing; otherwise the passes run in schema order. Every table needs
   * a first column for its header.
   */
  method GenerateCsv(root: Option<Value>, schema: Option<Schema>, context: CsvContext?)
    requires root.Some? && schema.Some? && context != null ==> HeadersWritable(schema.value.tables)
    modifies context
    ensures context != null ==> context.State() == Generate(root, schema, old(context.State()))
    ensures context != null ==> context.outputDir == old(context.outputDir)
  {
    if root.None? || schema.None? || context == null {
      return;
    }
    var r := root.value;
    var tables := schema.value.tables;
    var k := 0;
    while k < |tables|
      invariant 0 <= k <= |tables|
      invariant Passes(r, tables, k, context.State()) == Passes(r, tables, 0, old(context.State()))
      invariant context.outputDir == old(context.outputDir)
    {
      context.WriteTable(r, tables[k], tables);
      k := k + 1;
    }
  }
}
