/**
  Python dictionaries as the compiler uses them: an association list in insertion order.
  Assigning to an existing key replaces its value where it stands; assigning to a new key
  appends it. `update` is a sequence of such assignments.
 */
module Assoc {
  import opened Wrappers

  type Dict<V> = seq<(string, V)>

  predicate HasKey<V>(d: Dict<V>, k: string) {
    exists i :: 0 <= i < |d| && d[i].0 == k
  }

  /** No key occurs twice, as in every Python dictionary. */
  predicate DistinctKeys<V>(d: Dict<V>) {
    forall i, j :: 0 <= i < j < |d| ==> d[i].0 != d[j].0
  }

  /** Position of `k` in `d`, or -1 when `d` does not hold it. */
  function IndexOf<V>(d: Dict<V>, k: string): (i: int)
    ensures -1 <= i < |d|
    ensures i >= 0 ==> d[i].0 == k
    ensures forall j :: 0 <= j < |d| && (i < 0 || j < i) ==> d[j].0 != k
  {
    if d == [] then -1
    else if d[0].0 == k then 0
    else
      var i := IndexOf(d[1..], k);
      if i < 0 then -1 else i + 1
  }

  /** `d.get(k)` */
  function Get<V>(d: Dict<V>, k: string): (r: Option<V>)
    ensures r.Some? <==> HasKey(d, k)
    ensures r.Some? ==> (k, r.value) in d
  {
    var i := IndexOf(d, k);
    if i < 0 then None else Some(d[i].1)
  }

  /** `d[k] = v`: afterwards `k` maps to `v` and every other key to what it mapped to before.
      An existing key keeps its place (the keys in order are unchanged); a new key is
      appended. Distinct keys stay distinct. */
  function Put<V>(d: Dict<V>, k: string, v: V): (r: Dict<V>)
    ensures Get(r, k) == Some(v)
    ensures forall k' :: k' != k ==> Get(r, k') == Get(d, k')
    ensures HasKey(d, k) ==> |r| == |d| && forall i :: 0 <= i < |d| ==> r[i].0 == d[i].0
    ensures !HasKey(d, k) ==> r == d + [(k, v)]
    ensures DistinctKeys(d) ==> DistinctKeys(r)
  {
    var i := IndexOf(d, k);
    var r := if i < 0 then d + [(k, v)] else d[i := (k, v)];
    assert Get(r, k) == Some(v) by {
      if i < 0 {
        assert r[|d|].0 == k && forall j :: 0 <= j < |d| ==> r[j].0 == d[j].0;
        assert IndexOf(r, k) == |d|;
      } else {
        assert r[i].0 == k && forall j :: 0 <= j < i ==> r[j].0 == d[j].0;
        assert IndexOf(r, k) == i;
      }
    }
    forall k' | k' != k ensures Get(r, k') == Get(d, k') {
      SameKeysIndexOf(d, r, k');
    }
    r
  }

  /** Appending or replacing the value of an existing key never moves another key. */
  lemma SameKeysIndexOf<V>(d: Dict<V>, r: Dict<V>, k: string)
    requires |d| <= |r| && forall j :: 0 <= j < |d| ==> r[j].0 == d[j].0
    requires forall j :: |d| <= j < |r| ==> r[j].0 != k
    requires forall j :: 0 <= j < |d| && r[j].0 == k ==> r[j] == d[j]
    ensures Get(r, k) == Get(d, k)
  {
    var i := IndexOf(d, k);
    var i' := IndexOf(r, k);
    if i >= 0 {
      assert i' == i;
    } else {
      assert i' < 0;
    }
  }

  /** `d.update(e)`: the assignments `d[k] = v` for the items of `e`, in order. */
  function Update<V>(d: Dict<V>, e: Dict<V>): (r: Dict<V>)
    ensures DistinctKeys(d) ==> DistinctKeys(r)
    decreases |e|
  {
    if e == [] then d else Update(Put(d, e[0].0, e[0].1), e[1..])
  }

  /** After `d.update(e)` a key of `e` maps to its value in `e`, and any other key to its
      value in `d`. */
  lemma {:induction false} UpdateGet<V>(d: Dict<V>, e: Dict<V>, k: string)
    requires DistinctKeys(e)
    ensures Get(Update(d, e), k) == if HasKey(e, k) then Get(e, k) else Get(d, k)
    decreases |e|
  {
    if e != [] {
      var d' := Put(d, e[0].0, e[0].1);
      assert DistinctKeys(e[1..]);
      UpdateGet(d', e[1..], k);
      if k == e[0].0 {
        assert !HasKey(e[1..], k);
      } else {
        assert HasKey(e, k) <==> HasKey(e[1..], k) by {
          if HasKey(e, k) {
            var i :| 0 <= i < |e| && e[i].0 == k;
            assert i > 0 && e[1..][i - 1].0 == k;
          }
          if HasKey(e[1..], k) {
            var i :| 0 <= i < |e[1..]| && e[1..][i].0 == k;
            assert e[i + 1].0 == k;
          }
        }
      }
    }
  }
}
