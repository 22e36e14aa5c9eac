/** Python dictionaries as ordered association lists.

    A Python dict remembers insertion order: assigning to a key that is already
    present keeps that key where it is, assigning to a new key appends it. A
    dict is modelled as a sequence of (key, value) pairs in that order; the
    operations below find a key at its first occurrence, so they behave like a
    dict on every sequence whose keys are unique (UniqueKeys).
 */
module Dicts {

  datatype Option<+T> = None | Some(value: T)

  /** The keys of `d`, in insertion order (what `d.keys()` iterates). */
  function Keys<V>(d: seq<(string, V)>): seq<string>
  {
    seq(|d|, i requires 0 <= i < |d| => d[i].0)
  }

  /** `k in d` */
  predicate HasKey<V>(d: seq<(string, V)>, k: string)
  {
    k in Keys(d)
  }

  /** A key is in a dictionary exactly when some entry is stored under it. */
  lemma HasKeyIffStored<V>(d: seq<(string, V)>, k: string)
    ensures HasKey(d, k) <==> exists i :: 0 <= i < |d| && d[i].0 == k
  {
    assert forall i :: 0 <= i < |d| ==> Keys(d)[i] == d[i].0;
  }

  /** The dictionary invariant: no key occurs twice. */
  predicate UniqueKeys<V>(d: seq<(string, V)>)
  {
    forall i, j :: 0 <= i < j < |d| ==> d[i].0 != d[j].0
  }

  /** The position of `k` in `d`: its first occurrence. */
  function IndexOf<V>(d: seq<(string, V)>, k: string): (p: nat)
    requires HasKey(d, k)
    ensures p < |d| && d[p].0 == k
    ensures forall i :: 0 <= i < p ==> d[i].0 != k
  {
    if d[0].0 == k then 0
    else
      assert Keys(d) == [d[0].0] + Keys(d[1..]);
      1 + IndexOf(d[1..], k)
  }

  /** `k in d` and `d[k]`: the value stored under `k`, if any. */
  function Lookup<V>(d: seq<(string, V)>, k: string): (r: Option<V>)
    ensures r.Some? <==> HasKey(d, k)
  {
    if HasKey(d, k) then Some(d[IndexOf(d, k)].1) else None
  }

  /** `d[k] = v`: an existing key keeps its position and gets the new value;
      a new key is appended at the end. */
  function Assign<V>(d: seq<(string, V)>, k: string, v: V): (r: seq<(string, V)>)
    ensures Lookup(r, k) == Some(v)
    ensures forall k' :: k' != k ==> Lookup(r, k') == Lookup(d, k')
    ensures Keys(r) == if HasKey(d, k) then Keys(d) else Keys(d) + [k]
    ensures Lookup(d, k) == Some(v) ==> r == d
    ensures UniqueKeys(d) ==> UniqueKeys(r)
  {
    if HasKey(d, k) then
      var p := IndexOf(d, k);
      var r := d[p := (k, v)];
      assert Keys(r) == Keys(d);
      SameKeysSameIndex(d, r, k);
      forall k' | k' != k
        ensures Lookup(r, k') == Lookup(d, k')
      {
        SameKeysSameIndex(d, r, k');
      }
      r
    else
      var r := d + [(k, v)];
      assert Keys(r) == Keys(d) + [k];
      forall i | 0 <= i < |d| ensures r[i].0 != k {
        assert Keys(d)[i] == d[i].0;
      }
      FirstOccurrenceIsIndexOf(r, k, |d|);
      forall k' | k' != k
        ensures Lookup(r, k') == Lookup(d, k')
      {
        if HasKey(d, k') {
          FirstOccurrenceIsIndexOf(r, k', IndexOf(d, k'));
        }
      }
      r
  }

  /** The first occurrence of a key is where IndexOf finds it. */
  lemma FirstOccurrenceIsIndexOf<V>(d: seq<(string, V)>, k: string, p: nat)
    requires p < |d| && d[p].0 == k
    requires forall i :: 0 <= i < p ==> d[i].0 != k
    ensures HasKey(d, k) && IndexOf(d, k) == p
  {
    assert Keys(d)[p] == k;
  }

  /** Two dictionaries with the same keys in the same order find every key at
      the same position, whatever their values. */
  lemma SameKeysSameIndex<V, U>(d: seq<(string, V)>, e: seq<(string, U)>, k: string)
    requires Keys(d) == Keys(e)
    ensures HasKey(d, k) <==> HasKey(e, k)
    ensures HasKey(d, k) ==> IndexOf(d, k) == IndexOf(e, k)
  {
    assert |d| == |Keys(d)| == |Keys(e)| == |e|;
    if HasKey(d, k) {
      var p := IndexOf(d, k);
      assert Keys(e)[p] == Keys(d)[p];
      forall i | 0 <= i < p ensures e[i].0 != k {
        assert Keys(e)[i] == Keys(d)[i];
      }
      FirstOccurrenceIsIndexOf(e, k, p);
    }
  }

  /** `d[k]` finds the value stored under `k`: in a dictionary with unique
      keys, the entry at any position is what a lookup of its key returns. */
  lemma LookupFindsStoredValue<V>(d: seq<(string, V)>, i: nat)
    requires UniqueKeys(d) && i < |d|
    ensures Lookup(d, d[i].0) == Some(d[i].1)
  {
    FirstOccurrenceIsIndexOf(d, d[i].0, i);
  }
}
