/**
 * The root rewrite that main.c applies between parsing and schema
 * inference: an object root none of whose own fields is an array is
 * wrapped as `{"users": [root]}`, so that it yields one "users" table.
 */
module Driver {
  import opened Common
  import opened Ast
  import opened CsvFields
  import opened CsvGenerator
  import opened CsvGeneratorProofs

  /** Some field of the object holds an array directly (arrays nested deeper do not count). */
  predicate HasDirectArrayField(ps: seq<Pair>) {
    exists i :: 0 <= i < |ps| && ps[i].value.Array?
  }

  /** The root after the rewrite: only an object root without a direct array field is wrapped. */
  function WrapRoot(root: Value): Value {
    if root.Object? && !HasDirectArrayField(root.pairs) then Object([Pair("users", Array([root]))]) else root
  }

  /**
   * The rewrite as main.c performs it: scan the root's fields for an array
   * (stopping at the first), and otherwise build a fresh array holding the
   * root and a fresh object holding it under "users", both grown by the
   * in-place appends.
   */
  method WrapSingleObjectRoot(root: Node) returns (newRoot: Node)
    requires root.Valid()
    ensures newRoot.Valid()
    ensures newRoot.ToValue() == WrapRoot(root.ToValue())
    ensures root.nodeType == ObjectNode && !HasDirectArrayField(root.pairs) ==> fresh(newRoot)
    ensures !(root.nodeType == ObjectNode && !HasDirectArrayField(root.pairs)) ==> newRoot == root
  {
    if root.nodeType != ObjectNode {
      return root;
    }
    var isCollectionRoot := false;
    var i := 0;
    while i < root.pairCount
      invariant 0 <= i <= root.pairCount
      invariant !isCollectionRoot
      invariant forall j :: 0 <= j < i ==> !root.pairs[j].value.Array?
    {
      if root.pairs[i].value.Array? {
        assert HasDirectArrayField(root.pairs);
        isCollectionRoot := true;
        break;
      }
      i := i + 1;
    }
    if isCollectionRoot {
      return root;
    }
    assert !HasDirectArrayField(root.pairs);
    ghost var original := root.ToValue();
    assert WrapRoot(original) == Object([Pair("users", Array([original]))]);
    var arr := new Node.CreateArray(None, 0);
    var appended := arr.AddElement(root.ToValue());
    var p := Pair("users", arr.ToValue());
    newRoot := new Node.CreateObject(None, 0);
    var added := newRoot.AddPair(p);
    assert root.ToValue() == original;
    assert arr.ToValue() == Array([original]);
    assert newRoot.ToValue() == Object([p]);
  }

  /**
   * A wrapped root yields exactly one table, "users", whose columns are
   * the original root's keys in order.
   */
  lemma WrappedSchema(root: Value)
    requires root.Object? && !HasDirectArrayField(root.pairs)
    ensures InferredTables(WrapRoot(root)) == [Table("users", KeysOf(root.pairs))]
  {
    var p := Pair("users", Array([root]));
    assert WrapRoot(root).pairs == [p];
    assert TableFor(p) == Some(Table("users", KeysOf(root.pairs)));
    assert [p][..0] == [];
    assert TablesOf([p]) == AsSeq(TableFor(p)) + TablesOf([]);
  }

  /**
   * Roots that are not objects, and objects with a direct array field, are
   * left as they are; a non-object root then yields no table at all.
   */
  lemma UnwrappedRoots(root: Value)
    requires !root.Object? || HasDirectArrayField(root.pairs)
    ensures WrapRoot(root) == root
    ensures !root.Object? ==> InferredTables(WrapRoot(root)) == []
  {
  }

  /** An array one level down does not stop the wrapping. */
  lemma DeeperArrayStillWrapped()
    ensures var root := Object([Pair("profile", Object([Pair("tags", Array([]))]))]);
      WrapRoot(root) == Object([Pair("users", Array([root]))])
  {
    var root := Object([Pair("profile", Object([Pair("tags", Array([]))]))]);
    assert !root.pairs[0].value.Array?;
  }

  /**
   * The empty object `{}` is wrapped too, and its "users" table has no
   * column, so the header write's need for a first column is not met.
   */
  lemma EmptyRootHeaderUnwritable()
    ensures InferredTables(WrapRoot(Object([]))) == [Table("users", [])]
    ensures !HeadersWritable(InferredTables(WrapRoot(Object([]))))
  {
    WrappedSchema(Object([]));
  }

  /**
   * A run on a wrapped root whose keys do not include "users" writes a
   * users file holding the header of the root's keys and a single row with
   * id 1 and every other cell empty: the row is sourced from the wrapper,
   * which has none of those keys, so the root's own values are not written.
   */
  lemma WrappedRunLosesValues(root: Value)
    requires root.Object? && !HasDirectArrayField(root.pairs) && |root.pairs| >= 1
    requires forall i :: 0 <= i < |root.pairs| ==> root.pairs[i].key != "users"
    ensures var w := WrapRoot(root);
      var tables := InferredTables(w);
      var r := Generate(Some(w), Some(Schema(tables, |tables|)), Output(1, map[], []));
      var keys := KeysOf(root.pairs);
      && r.nextId == 2
      && FileOf(r.files, "users") == [Header(keys), Row(1, seq(|keys| - 1, _ => ""))]
  {
    var w := WrapRoot(root);
    var keys := KeysOf(root.pairs);
    var t := Table("users", keys);
    WrappedSchema(root);
    var tables := [t];
    var st := Output(1, map[], []);
    var s1 := WriteLine(Truncate(st, t.name), t.name, Header(t.columns));
    forall i | 1 <= i < |t.columns|
      ensures FirstTableNamed(tables, t.columns[i], 0).None?
    {
      assert t.columns[i] == root.pairs[i].key;
    }
    ObjectWithoutFanOut(w, t, s1.nextId, tables, Allocate(s1));
    var cells := RowCells(w, Tail(keys));
    forall m | 0 <= m < |cells|
      ensures cells[m] == ""
    {
      assert Tail(keys)[m] == root.pairs[m + 1].key;
      assert FindPairByKey(w, Tail(keys)[m]).None?;
    }
    assert cells == seq(|keys| - 1, _ => "");
    assert Passes(w, tables, 0, st) == Passes(w, tables, 1, TablePass(w, t, tables, st));
  }
}
