/** Small helpers shared by the modules of the JSON-to-CSV model. */
module Common {

  /** A possibly absent value: the model's stand-in for a C pointer that may be NULL. */
  datatype Option<+T> = None | Some(value: T)

  /** The integers lo, lo + 1, ..., hi - 1, in increasing order. */
  function Range(lo: int, hi: int): (r: seq<int>)
    requires lo <= hi
  {
    seq(hi - lo, i requires 0 <= i < hi - lo => lo + i)
  }

  predicate StrictlyIncreasing(s: seq<int>) {
    forall i, j :: 0 <= i < j < |s| ==> s[i] < s[j]
  }

  /**
   * The first position at or after `from` whose element has the key `key`,
   * as `keyOf` reads keys off elements: a linear first-match search.
   */
  function FirstWithKey<T>(s: seq<T>, keyOf: T -> string, key: string, from: nat): (r: Option<nat>)
    ensures r.Some? ==> from <= r.value < |s| && keyOf(s[r.value]) == key
    ensures r.Some? ==> forall j :: from <= j < r.value ==> keyOf(s[j]) != key
    ensures r.None? ==> forall j :: from <= j < |s| ==> keyOf(s[j]) != key
    decreases |s| - from
  {
    if from >= |s| then None
    else if keyOf(s[from]) == key then Some(from)
    else FirstWithKey(s, keyOf, key, from + 1)
  }

  /** Two adjacent ranges join into one. */
  lemma RangeConcat(a: int, b: int, c: int)
    requires a <= b <= c
    ensures Range(a, b) + Range(b, c) == Range(a, c)
  {
    var l, r := Range(a, b), Range(b, c);
    assert |l + r| == c - a;
    forall i | 0 <= i < c - a
      ensures (l + r)[i] == Range(a, c)[i]
    {
      if i < b - a {
        assert (l + r)[i] == l[i];
      } else {
        assert (l + r)[i] == r[i - (b - a)];
      }
    }
  }

  /** A range with its first element taken off. */
  lemma RangeCons(a: int, b: int)
    requires a < b
    ensures [a] + Range(a + 1, b) == Range(a, b)
  {
    RangeConcat(a, a + 1, b);
    assert Range(a, a + 1) == [a];
  }

  lemma RangeIncreasing(a: int, b: int)
    requires a <= b
    ensures StrictlyIncreasing(Range(a, b))
  {
  }
}
