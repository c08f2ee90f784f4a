/**
 * A JavaScript `Map` as the interpreter uses it: entries in insertion order,
 * `set` replaces the value of a key already present where it stands and
 * appends a new key at the end, and the last entry is the most recently
 * inserted key.
 */
module OrderedMap {
  import opened Wrappers

  type Entries<V> = seq<(string, V)>

  /** No key occurs twice: the invariant a `Map` keeps. */
  predicate KeysUnique<V>(m: Entries<V>) {
    forall i, j :: 0 <= i < j < |m| ==> m[i].0 != m[j].0
  }

  predicate HasKey<V>(m: Entries<V>, k: string) {
    exists i :: 0 <= i < |m| && m[i].0 == k
  }

  /** The position of `k`, or -1 when it is absent. */
  function Find<V>(m: Entries<V>, k: string): (r: int)
    ensures -1 <= r < |m|
    ensures r == -1 <==> !HasKey(m, k)
    ensures 0 <= r ==> m[r].0 == k && forall i :: 0 <= i < r ==> m[i].0 != k
  {
    if |m| == 0 then -1
    else if m[0].0 == k then 0
    else
      var r := Find(m[1..], k);
      if r == -1 then
        assert forall i :: 1 <= i < |m| ==> m[i] == m[1..][i - 1];
        -1
      else r + 1
  }

  /** `map.get(k)`. */
  function Get<V>(m: Entries<V>, k: string): (r: Option<V>)
    ensures r.None? <==> !HasKey(m, k)
  {
    var i := Find(m, k);
    if i == -1 then None else Some(m[i].1)
  }

  /**
   * `map.set(k, v)`: a key already present keeps its position and takes the
   * new value; a new key goes at the end. Every other key keeps its value
   * and every old key its position.
   */
  function Set<V>(m: Entries<V>, k: string, v: V): (r: Entries<V>)
    ensures |r| == if HasKey(m, k) then |m| else |m| + 1
    ensures forall i :: 0 <= i < |m| ==> r[i].0 == m[i].0
    ensures forall i :: 0 <= i < |m| && m[i].0 != k ==> r[i] == m[i]
    ensures !HasKey(m, k) ==> r[|m|] == (k, v)
    ensures Get(r, k) == Some(v)
    ensures forall k' :: k' != k ==> Get(r, k') == Get(m, k')
    ensures KeysUnique(m) ==> KeysUnique(r)
  {
    var i := Find(m, k);
    var r := if i == -1 then m + [(k, v)] else m[i := (k, v)];
    assert forall k' :: k' != k ==> Find(r, k') == Find(m, k') by {
      forall k' | k' != k ensures Find(r, k') == Find(m, k') {
        FindSameKeys(m, r, k');
      }
    }
    r
  }

  /** Only the keys and their order decide where a key is found. */
  lemma {:induction false} FindSameKeys<V>(m: Entries<V>, r: Entries<V>, k: string)
    requires |m| <= |r|
    requires forall i :: 0 <= i < |m| ==> r[i].0 == m[i].0
    requires forall i :: |m| <= i < |r| ==> r[i].0 != k
    ensures Find(r, k) == Find(m, k)
  {
    if |m| > 0 && m[0].0 != k {
      FindSameKeys(m[1..], r[1..], k);
    } else if |m| == 0 && |r| > 0 {
      FindSameKeys(m, r[1..], k);
    }
  }

  /** The key of the last entry: the most recently inserted key. */
  function LastKey<V>(m: Entries<V>): (r: string)
    requires |m| > 0
    ensures HasKey(m, r)
    ensures KeysUnique(m) ==> Find(m, r) == |m| - 1
  {
    m[|m| - 1].0
  }

  /**
   * Re-binding a key never changes which key is last; binding a new key
   * makes it the last one.
   */
  lemma LastKeyAfterSet<V>(m: Entries<V>, k: string, v: V)
    ensures |Set(m, k, v)| > 0
    ensures LastKey(Set(m, k, v)) == if HasKey(m, k) then LastKey(m) else k
  {
  }
}
