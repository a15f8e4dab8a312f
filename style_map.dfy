/** An insertion-ordered table from strings to strings, as JavaScript's
    `Map<string, string>` and plain records with string keys behave: a new
    key is added at the end, and setting an existing key replaces its value
    where it stands. */
module StyleMap {
  import opened Wrappers

  type Entries = seq<(string, string)>

  predicate HasKey(m: Entries, k: string) {
    exists i :: 0 <= i < |m| && m[i].0 == k
  }

  /** No key occurs twice, which every table built by `Put` keeps. */
  predicate DistinctKeys(m: Entries) {
    forall i, j :: 0 <= i < j < |m| ==> m[i].0 != m[j].0
  }

  /** `m.get(k)`: the value stored under `k`, or none. */
  function Get(m: Entries, k: string): (r: Option<string>)
    ensures r.Some? <==> HasKey(m, k)
    ensures r.Some? ==> (k, r.value) in m
  {
    if m == [] then None
    else if m[0].0 == k then Some(m[0].1)
    else Get(m[1..], k)
  }

  /** `m.set(k, v)`. */
  function Put(m: Entries, k: string, v: string): (r: Entries)
    ensures Get(r, k) == Some(v)
    ensures forall j :: j != k ==> Get(r, j) == Get(m, j)
    ensures |r| == if HasKey(m, k) then |m| else |m| + 1
    ensures forall i :: 0 <= i < |m| ==> r[i].0 == m[i].0
    ensures !HasKey(m, k) ==> r[|m|] == (k, v)
    ensures DistinctKeys(m) ==> DistinctKeys(r)
  {
    if m == [] then [(k, v)]
    else if m[0].0 == k then [(k, v)] + m[1..]
    else [m[0]] + Put(m[1..], k, v)
  }

  /** In a table without repeated keys, each entry is what its key looks up. */
  lemma GetDistinct(m: Entries, i: int)
    requires DistinctKeys(m) && 0 <= i < |m|
    ensures Get(m, m[i].0) == Some(m[i].1)
  {
    var r := Get(m, m[i].0);
    assert HasKey(m, m[i].0);
    var j :| 0 <= j < |m| && m[j] == (m[i].0, r.value);
  }
}
