/**
 * The key-set helpers of ast.c. Nothing in the program calls them; they are
 * kept as pure functions beside the schema inference they were meant for.
 */
module KeySets {
  import opened Common
  import opened Ast

  /** The keys of one object shape and the table name it was found under. */
  datatype KeySet = KeySet(keys: seq<string>, tableName: string)

  /** Linear search for `key` (the inner loops of compare_key_sets and find_key_set). */
  function ContainsKey(keys: seq<string>, key: string): (found: bool)
    ensures found <==> key in keys
  {
    if keys == [] then false else keys[0] == key || ContainsKey(keys[1..], key)
  }

  /** Every key of `ks` occurs among `among` (the outer loops). */
  function AllKeysFound(ks: seq<string>, among: seq<string>): (all: bool)
    ensures all <==> forall i :: 0 <= i < |ks| ==> ks[i] in among
  {
    if ks == [] then true else ContainsKey(among, ks[0]) && AllKeysFound(ks[1..], among)
  }

  /** `a` and `b` are objects of equal size and each key of `a` occurs in `b`. */
  function CompareKeySets(a: Value, b: Value): (same: bool)
    ensures same <==> && a.Object? && b.Object?
                      && |a.pairs| == |b.pairs|
                      && forall i :: 0 <= i < |a.pairs| ==>
                           exists j :: 0 <= j < |b.pairs| && a.pairs[i].key == b.pairs[j].key
  {
    if !a.Object? || !b.Object? then false
    else if |a.pairs| != |b.pairs| then false
    else
      var bk := KeysOf(b.pairs);
      var r := AllKeysFound(KeysOf(a.pairs), bk);
      assert r <==> forall i :: 0 <= i < |a.pairs| ==> a.pairs[i].key in bk;
      assert forall key :: key in bk <==> exists j :: 0 <= j < |b.pairs| && key == b.pairs[j].key by {
        forall key | key in bk ensures exists j :: 0 <= j < |b.pairs| && key == b.pairs[j].key {
          var j :| 0 <= j < |bk| && bk[j] == key;
          assert key == b.pairs[j].key;
        }
      }
      r
  }

  /** The key set `ks` describes `obj`: same number of keys, each key of `obj` among them. */
  predicate Describes(ks: KeySet, obj: Value)
    requires obj.Object?
  {
    |obj.pairs| == |ks.keys| && forall i :: 0 <= i < |obj.pairs| ==> obj.pairs[i].key in ks.keys
  }

  /** The first key set in `list` from position `from` on that describes `obj`. */
  function FindKeySetFrom(list: seq<KeySet>, obj: Value, from: nat): (r: Option<nat>)
    requires obj.Object?
    ensures r.Some? ==> from <= r.value < |list| && Describes(list[r.value], obj)
    ensures r.Some? ==> forall m :: from <= m < r.value ==> !Describes(list[m], obj)
    ensures r.None? ==> forall m :: from <= m < |list| ==> !Describes(list[m], obj)
    decreases |list| - from
  {
    if from >= |list| then None
    else if |obj.pairs| == |list[from].keys| && AllKeysFound(KeysOf(obj.pairs), list[from].keys) then Some(from)
    else FindKeySetFrom(list, obj, from + 1)
  }

  /** find_key_set: the first key set of the list that describes `obj`, if any. */
  function FindKeySet(list: seq<KeySet>, obj: Value): (r: Option<nat>)
    requires obj.Object?
    ensures r.Some? ==> r.value < |list| && Describes(list[r.value], obj)
    ensures r.Some? ==> forall m :: 0 <= m < r.value ==> !Describes(list[m], obj)
    ensures r.None? ==> forall m :: 0 <= m < |list| ==> !Describes(list[m], obj)
  {
    FindKeySetFrom(list, obj, 0)
  }

  /** create_key_set: the object's keys under the hint, or under "table" when there is none. */
  function CreateKeySet(obj: Value, nameHint: Option<string>): (ks: KeySet)
    requires obj.Object?
    ensures Describes(ks, obj)
    ensures ks.keys == KeysOf(obj.pairs)
    ensures ks.tableName == (if nameHint.Some? then nameHint.value else "table")
  {
    KeySet(KeysOf(obj.pairs), if nameHint.Some? then nameHint.value else "table")
  }

  /** create_table_from_key_set: an "id" column, then the key set's keys. */
  function CreateTableFromKeySet(ks: KeySet): (t: Table)
    ensures t.name == ks.tableName
    ensures |t.columns| == |ks.keys| + 1 && t.columns[0] == "id" && t.columns[1..] == ks.keys
  {
    Table(ks.tableName, ["id"] + ks.keys)
  }

  /** collect_key_sets on a node that may be missing. */
  function CollectKeySets(node: Option<Value>, keySets: seq<KeySet>, nameHint: Option<string>): (r: seq<KeySet>)
    ensures r == keySets
  {
    if node.None? then keySets else CollectFromValue(node.value, keySets, nameHint)
  }

  /**
   * collect_key_sets on a present node: it walks objects, descending into
   * object fields and into the first element of arrays led by an object,
   * but never adds a key set, so the list comes back as it went in.
   */
  function CollectFromValue(node: Value, keySets: seq<KeySet>, nameHint: Option<string>): (r: seq<KeySet>)
    ensures r == keySets
    decreases node, 1, 0
  {
    if node.Object? then CollectFields(node, 0, keySets) else keySets
  }

  /** The loop of collect_key_sets over the entries of `obj` from position `i` on. */
  function CollectFields(obj: Value, i: nat, keySets: seq<KeySet>): (r: seq<KeySet>)
    requires obj.Object?
    ensures r == keySets
    decreases obj, 0, |obj.pairs| - i
  {
    if i >= |obj.pairs| then keySets
    else
      var pair := obj.pairs[i];
      var value := pair.value;
      var next :=
        if value.Array? && |value.elements| > 0 then
          if value.elements[0].Object? then CollectFromValue(value.elements[0], keySets, Some(pair.key))
          else keySets
        else if value.Object? then CollectFromValue(value, keySets, Some(pair.key))
        else keySets;
      CollectFields(obj, i + 1, next)
  }

  /**
   * The unused key-set route would give a root object field the table that
   * schema inference gives it, with an "id" column in front.
   */
  lemma KeySetTableAddsId(p: Pair)
    requires p.value.Object?
    ensures TableFor(p).Some?
    ensures CreateTableFromKeySet(CreateKeySet(p.value, Some(p.key)))
         == Table(TableFor(p).value.name, ["id"] + TableFor(p).value.columns)
  {
  }
}
