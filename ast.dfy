/**
 * The parsed JSON tree and the shallow schema inference that turns the root
 * object's fields into table descriptors (ast.h, ast.c).
 */
module Ast {
  import opened Common

  /** A parsed JSON value. Object keys need not be unique; order is parse order. */
  datatype Value =
    | Object(pairs: seq<Pair>)
    | Array(elements: seq<Value>)
    | String(text: string)
    | Number(number: int)
    | Boolean(truth: bool)
    | Null

  /** One `"key": value` entry of an object. */
  datatype Pair = Pair(key: string, value: Value)

  /** The key an entry is looked up by. */
  function PairKey(p: Pair): string {
    p.key
  }

  /** The tag of a node. */
  datatype NodeType = ObjectNode | ArrayNode | StringNode | NumberNode | BooleanNode | NullNode

  function TypeOf(v: Value): NodeType {
    match v
    case Object(_) => ObjectNode
    case Array(_) => ArrayNode
    case String(_) => StringNode
    case Number(_) => NumberNode
    case Boolean(_) => BooleanNode
    case Null => NullNode
  }

  /** Outcome of a node mutation: the process stops with a message on misuse. */
  datatype Status = Ok | Fatal(message: string)

  const PairMisuse := "Error: Cannot add pair to non-object node"
  const ElementMisuse := "Error: Cannot add element to non-array node"

  /**
   * A tree node that the parser and the root-wrapping step grow in place.
   * Only the fields of the node's own variant are meaningful; the counts
   * are kept beside the buffers as in the C struct.
   */
  class Node {
    var nodeType: NodeType
    var pairs: seq<Pair>
    var pairCount: int
    var elements: seq<Value>
    var elementCount: int
    /** The payload of a string, number, boolean or null node. */
    var scalar: Value

    ghost predicate Valid()
      reads this
    {
      && pairCount == |pairs|
      && elementCount == |elements|
      && (nodeType != ObjectNode && nodeType != ArrayNode ==> TypeOf(scalar) == nodeType)
    }

    /** The JSON value this node currently stands for. */
    function ToValue(): (v: Value)
      reads this
      requires Valid()
      ensures TypeOf(v) == nodeType
    {
      match nodeType
      case ObjectNode => Object(pairs)
      case ArrayNode => Array(elements)
      case _ => scalar
    }

    /** An object node over the first `pairCount` entries of a buffer, or an empty one. */
    constructor CreateObject(buffer: Option<seq<Pair>>, count: int)
      requires buffer.Some? && count > 0 ==> count <= |buffer.value|
      ensures Valid() && nodeType == ObjectNode
      ensures buffer.Some? && count > 0 ==> pairs == buffer.value[..count] && pairCount == count
      ensures !(buffer.Some? && count > 0) ==> pairs == [] && pairCount == 0
    {
      nodeType := ObjectNode;
      if buffer.Some? && count > 0 {
        pairs, pairCount := buffer.value[..count], count;
      } else {
        pairs, pairCount := [], 0;
      }
      elements, elementCount := [], 0;
      scalar := Null;
    }

    /** An array node over the first `count` elements of a buffer, or an empty one. */
    constructor CreateArray(buffer: Option<seq<Value>>, count: int)
      requires buffer.Some? && count > 0 ==> count <= |buffer.value|
      ensures Valid() && nodeType == ArrayNode
      ensures buffer.Some? && count > 0 ==> elements == buffer.value[..count] && elementCount == count
      ensures !(buffer.Some? && count > 0) ==> elements == [] && elementCount == 0
    {
      nodeType := ArrayNode;
      if buffer.Some? && count > 0 {
        elements, elementCount := buffer.value[..count], count;
      } else {
        elements, elementCount := [], 0;
      }
      pairs, pairCount := [], 0;
      scalar := Null;
    }

    /** A string, number, boolean or null node. */
    constructor CreateScalar(v: Value)
      requires !v.Object? && !v.Array?
      ensures Valid() && ToValue() == v
    {
      nodeType := TypeOf(v);
      scalar := v;
      pairs, pairCount := [], 0;
      elements, elementCount := [], 0;
    }

    /** Appends `pair` as the object's new last entry; misuse on a non-object is fatal. */
    method AddPair(pair: Pair) returns (status: Status)
      requires Valid()
      modifies this
      ensures Valid()
      ensures status.Ok? <==> old(nodeType) == ObjectNode
      ensures status.Fatal? ==> status.message == PairMisuse && unchanged(this)
      ensures status.Ok? ==> && nodeType == ObjectNode
                             && pairCount == old(pairCount) + 1
                             && pairs == old(pairs) + [pair]
                             && pairs[pairCount - 1] == pair
                             && ToValue() == Object(old(pairs) + [pair])
    {
      if nodeType != ObjectNode {
        return Fatal(PairMisuse);
      }
      pairCount := pairCount + 1;
      pairs := pairs + [pair];
      status := Ok;
    }

    /** Appends `element` as the array's new last element; misuse on a non-array is fatal. */
    method AddElement(element: Value) returns (status: Status)
      requires Valid()
      modifies this
      ensures Valid()
      ensures status.Ok? <==> old(nodeType) == ArrayNode
      ensures status.Fatal? ==> status.message == ElementMisuse && unchanged(this)
      ensures status.Ok? ==> && nodeType == ArrayNode
                             && elementCount == old(elementCount) + 1
                             && elements == old(elements) + [element]
                             && elements[elementCount - 1] == element
                             && ToValue() == Array(old(elements) + [element])
    {
      if nodeType != ArrayNode {
        return Fatal(ElementMisuse);
      }
      elementCount := elementCount + 1;
      elements := elements + [element];
      status := Ok;
    }
  }

  /** A table descriptor: the file it goes to and its header columns. */
  datatype Table = Table(name: string, columns: seq<string>)

  /** The name a table is looked up by. */
  function TableName(t: Table): string {
    t.name
  }

  /** The inferred tables, in list order, and their count. */
  datatype Schema = Schema(tables: seq<Table>, tableCount: int)

  /** The keys of an object's entries, in order. */
  function KeysOf(ps: seq<Pair>): (keys: seq<string>)
    ensures |keys| == |ps|
    ensures forall i :: 0 <= i < |ps| ==> keys[i] == ps[i].key
  {
    if ps == [] then [] else [ps[0].key] + KeysOf(ps[1..])
  }

  /** A root field yields a table: a non-empty array led by an object, or an object. */
  predicate DefinesTable(v: Value) {
    (v.Array? && |v.elements| > 0 && v.elements[0].Object?) || v.Object?
  }

  /** The entries of the one object that decides a table's columns. */
  function ShapeOf(v: Value): seq<Pair>
    requires DefinesTable(v)
  {
    if v.Array? then v.elements[0].pairs else v.pairs
  }

  /** The table one root field contributes, if any (the body of the loop in analyze_ast). */
  function TableFor(p: Pair): (t: Option<Table>)
    ensures t.Some? <==> DefinesTable(p.value)
    ensures t.Some? ==> && t.value.name == p.key
                        && |t.value.columns| == |ShapeOf(p.value)|
                        && forall j :: 0 <= j < |t.value.columns| ==> t.value.columns[j] == ShapeOf(p.value)[j].key
  {
    var v := p.value;
    if v.Array? && |v.elements| > 0 then
      if v.elements[0].Object? then Some(Table(p.key, KeysOf(v.elements[0].pairs))) else None
    else if v.Object? then
      Some(Table(p.key, KeysOf(v.pairs)))
    else
      None
  }

  function AsSeq<T>(o: Option<T>): seq<T> {
    if o.Some? then [o.value] else []
  }

  /** The table list after visiting `ps` in order, each new table prepended. */
  function TablesOf(ps: seq<Pair>): seq<Table> {
    if ps == [] then [] else AsSeq(TableFor(ps[|ps| - 1])) + TablesOf(ps[..|ps| - 1])
  }

  /** The number of fields in `ps` that yield a table. */
  function CountTables(ps: seq<Pair>): nat {
    if ps == [] then 0 else |AsSeq(TableFor(ps[|ps| - 1]))| + CountTables(ps[..|ps| - 1])
  }

  /** The schema inferred for a root: only an object root's own fields are looked at. */
  function InferredTables(root: Value): seq<Table> {
    if root.Object? then TablesOf(root.pairs) else []
  }

  /** The column names copied from a shape object's entries. */
  method CopyKeys(fields: seq<Pair>) returns (columns: seq<string>)
    ensures columns == KeysOf(fields)
  {
    columns := [];
    var j := 0;
    while j < |fields|
      invariant 0 <= j <= |fields|
      invariant |columns| == j
      invariant forall m :: 0 <= m < j ==> columns[m] == fields[m].key
    {
      columns := columns + [fields[j].key];
      j := j + 1;
    }
  }

  /**
   * One pass over the root object's entries, prepending a table for every
   * field that is an object or a non-empty array led by an object.
   * No "id" column is added. A missing root gives no schema; any other
   * non-object root gives an empty one.
   */
  method AnalyzeAst(root: Option<Value>) returns (schema: Option<Schema>)
    ensures schema.None? <==> root.None?
    ensures schema.Some? ==> schema.value.tables == InferredTables(root.value)
    ensures schema.Some? ==> schema.value.tableCount == |schema.value.tables|
    ensures root.Some? && !root.value.Object? ==> schema == Some(Schema([], 0))
  {
    if root.None? {
      return None;
    }
    var r := root.value;
    var tables: seq<Table> := [];
    var tableCount := 0;
    if r.Object? {
      var i := 0;
      while i < |r.pairs|
        invariant 0 <= i <= |r.pairs|
        invariant tables == TablesOf(r.pairs[..i])
        invariant tableCount == |tables|
      {
        var pair := r.pairs[i];
        var value := pair.value;
        assert r.pairs[..i + 1][..i] == r.pairs[..i];
        if value.Array? && |value.elements| > 0 {
          var first := value.elements[0];
          if first.Object? {
            var columns := CopyKeys(first.pairs);
            tables := [Table(pair.key, columns)] + tables;
            tableCount := tableCount + 1;
          }
        } else if value.Object? {
          var columns := CopyKeys(value.pairs);
          tables := [Table(pair.key, columns)] + tables;
          tableCount := tableCount + 1;
        }
        i := i + 1;
      }
      assert r.pairs[..i] == r.pairs;
    }
    schema := Some(Schema(tables, tableCount));
  }

  /** Counting over a concatenation adds up. */
  lemma {:induction false} CountTablesConcat(a: seq<Pair>, b: seq<Pair>)
    ensures CountTables(a + b) == CountTables(a) + CountTables(b)
    decreases |b|
  {
    if b != [] {
      var b' := b[..|b| - 1];
      assert (a + b)[..|a + b| - 1] == a + b';
      assert (a + b)[|a + b| - 1] == b[|b| - 1];
      CountTablesConcat(a, b');
    } else {
      assert a + b == a;
    }
  }

  /** The schema has one table per table-defining field. */
  lemma {:induction false} TablesOfCount(ps: seq<Pair>)
    ensures |TablesOf(ps)| == CountTables(ps)
    decreases |ps|
  {
    if ps != [] {
      TablesOfCount(ps[..|ps| - 1]);
    }
  }

  /**
   * The table of field i stands behind the tables of all later fields:
   * schema order is the reverse of field order.
   */
  lemma {:induction false} TablesOfPosition(ps: seq<Pair>, i: nat)
    requires i < |ps| && TableFor(ps[i]).Some?
    ensures CountTables(ps[i + 1..]) < |TablesOf(ps)|
    ensures TablesOf(ps)[CountTables(ps[i + 1..])] == TableFor(ps[i]).value
    decreases |ps|
  {
    var q, x := ps[..|ps| - 1], ps[|ps| - 1];
    TablesOfCount(ps);
    if i == |ps| - 1 {
      assert ps[i + 1..] == [];
    } else {
      assert ps[i] == q[i];
      var tail := ps[i + 1..];
      assert tail[..|tail| - 1] == q[i + 1..];
      assert tail[|tail| - 1] == x;
      var front := AsSeq(TableFor(x));
      var k := CountTables(q[i + 1..]);
      assert CountTables(tail) == |front| + k;
      assert TablesOf(ps) == front + TablesOf(q);
      TablesOfPosition(q, i);
      assert TablesOf(q)[k] == TableFor(ps[i]).value;
      assert (front + TablesOf(q))[|front| + k] == TablesOf(q)[k];
    }
  }

  /** Every table in the schema comes from a field, and every table-defining field gives one. */
  lemma TablesOfSource(ps: seq<Pair>, t: Table)
    ensures t in TablesOf(ps) <==> exists i :: 0 <= i < |ps| && TableFor(ps[i]) == Some(t)
  {
    if t in TablesOf(ps) {
      var i := TableSourceOf(ps, t);
    }
    if exists i :: 0 <= i < |ps| && TableFor(ps[i]) == Some(t) {
      var i :| 0 <= i < |ps| && TableFor(ps[i]) == Some(t);
      TableOfSource(ps, i);
    }
  }

  /** The field a table of the schema comes from. */
  lemma {:induction false} TableSourceOf(ps: seq<Pair>, t: Table) returns (i: nat)
    requires t in TablesOf(ps)
    ensures i < |ps| && TableFor(ps[i]) == Some(t)
    decreases |ps|
  {
    var q, x := ps[..|ps| - 1], ps[|ps| - 1];
    assert TablesOf(ps) == AsSeq(TableFor(x)) + TablesOf(q);
    if t in AsSeq(TableFor(x)) {
      i := |ps| - 1;
    } else {
      i := TableSourceOf(q, t);
      assert ps[i] == q[i];
    }
  }

  /** The table of a table-defining field is in the schema. */
  lemma {:induction false} TableOfSource(ps: seq<Pair>, i: nat)
    requires i < |ps| && TableFor(ps[i]).Some?
    ensures TableFor(ps[i]).value in TablesOf(ps)
  {
    TablesOfPosition(ps, i);
  }

  /** A table-defining field at j makes the fields after i count more tables than those after j. */
  lemma CountSuffixDrops(ps: seq<Pair>, i: nat, j: nat)
    requires i < j < |ps| && TableFor(ps[j]).Some?
    ensures CountTables(ps[j + 1..]) < CountTables(ps[i + 1..])
  {
    var a, b, c := ps[i + 1..j], [ps[j]], ps[j + 1..];
    assert a + b == ps[i + 1..j + 1];
    assert ps[i + 1..] == ps[i + 1..j + 1] + c;
    CountTablesConcat(a + b, c);
    CountTablesConcat(a, b);
    assert b[..0] == [] && b[0] == ps[j];
    assert CountTables(b) == 1;
  }

  /** Of two table-defining fields, the later one's table comes first in the schema. */
  lemma SchemaOrderReversed(ps: seq<Pair>, i: nat, j: nat)
    requires i < j < |ps| && TableFor(ps[i]).Some? && TableFor(ps[j]).Some?
    ensures CountTables(ps[j + 1..]) < CountTables(ps[i + 1..]) < |TablesOf(ps)|
    ensures TablesOf(ps)[CountTables(ps[j + 1..])] == TableFor(ps[j]).value
    ensures TablesOf(ps)[CountTables(ps[i + 1..])] == TableFor(ps[i]).value
  {
    TablesOfPosition(ps, i);
    TablesOfPosition(ps, j);
    CountSuffixDrops(ps, i, j);
  }

  /** Later array elements never influence a table's columns: only the first element is looked at. */
  lemma OnlyFirstElementShapes(key: string, first: Value, rest1: seq<Value>, rest2: seq<Value>)
    ensures TableFor(Pair(key, Array([first] + rest1))) == TableFor(Pair(key, Array([first] + rest2)))
  {
    assert ([first] + rest1)[0] == first && ([first] + rest2)[0] == first;
  }
}
